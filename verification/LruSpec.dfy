/** What a least-recently-used cache of a given capacity holds after any history of operations. */
module LruSpec {
  import opened Common

  datatype Entry<T> = Entry(key: string, value: T)

  datatype Op<T> = Put(key: string, value: T) | Get(key: string) | Erase(key: string) | Clear

  ghost predicate Has<T>(items: seq<Entry<T>>, key: string)
  {
    exists i :: 0 <= i < |items| && items[i].key == key
  }

  ghost predicate DistinctKeys<T>(items: seq<Entry<T>>)
  {
    forall i, j :: 0 <= i < j < |items| ==> items[i].key != items[j].key
  }

  function Find<T>(items: seq<Entry<T>>, key: string): Option<T>
  {
    if items == [] then None
    else if items[0].key == key then Some(items[0].value)
    else Find(items[1..], key)
  }

  // Drops the first entry with the key, if there is one.
  function Without<T>(items: seq<Entry<T>>, key: string): seq<Entry<T>>
  {
    if items == [] then []
    else if items[0].key == key then items[1..]
    else [items[0]] + Without(items[1..], key)
  }

  // Most recently used first.
  function PutSpec<T>(items: seq<Entry<T>>, cap: nat, key: string, value: T): seq<Entry<T>>
    requires cap >= 1
  {
    if Find(items, key).Some? then [Entry(key, value)] + Without(items, key)
    else if |items| >= cap then [Entry(key, value)] + items[..|items| - 1]
    else [Entry(key, value)] + items
  }

  function GetSpec<T>(items: seq<Entry<T>>, key: string): seq<Entry<T>>
  {
    match Find(items, key)
    case Some(v) => [Entry(key, v)] + Without(items, key)
    case None => items
  }

  function Step<T>(items: seq<Entry<T>>, cap: nat, op: Op<T>): seq<Entry<T>>
    requires cap >= 1
  {
    match op
    case Put(k, v) => PutSpec(items, cap, k, v)
    case Get(k) => GetSpec(items, k)
    case Erase(k) => Without(items, k)
    case Clear => []
  }

  // The cache's list after a history.
  function Run<T>(history: seq<Op<T>>, cap: nat): seq<Entry<T>>
    requires cap >= 1
  {
    if history == [] then []
    else Step(Run(history[..|history| - 1], cap), cap, history[|history| - 1])
  }

  // The move-to-front list of a history, never cut: the reference the bounded list is compared with.
  function MoveToFront<T>(history: seq<Op<T>>): seq<Entry<T>>
  {
    if history == [] then []
    else
      var before := MoveToFront(history[..|history| - 1]);
      match history[|history| - 1]
      case Put(k, v) => [Entry(k, v)] + Without(before, k)
      case Get(k) => GetSpec(before, k)
      case Erase(k) => Without(before, k)
      case Clear => []
  }

  ghost function Take<T>(items: seq<Entry<T>>, n: nat): seq<Entry<T>>
  {
    if |items| <= n then items else items[..n]
  }

  lemma {:induction false} FindAt<T>(items: seq<Entry<T>>, i: nat)
    requires DistinctKeys(items) && i < |items|
    ensures Find(items, items[i].key) == Some(items[i].value)
  {
    if i > 0 {
      assert items[1..][i - 1] == items[i] && items[0].key != items[i].key;
      FindAt(items[1..], i - 1);
    }
  }

  lemma {:induction false} WithoutAt<T>(items: seq<Entry<T>>, i: nat)
    requires DistinctKeys(items) && i < |items|
    ensures Without(items, items[i].key) == items[..i] + items[i + 1..]
  {
    if i > 0 {
      var rest := items[1..];
      assert rest[i - 1] == items[i] && items[0].key != items[i].key;
      assert Without(items, items[i].key) == [items[0]] + Without(rest, items[i].key);
      WithoutAt(rest, i - 1);
      hide Without;
      assert rest[..i - 1] == items[1..i] && rest[i..] == items[i + 1..];
    }
  }

  lemma {:induction false} FindAbsent<T>(items: seq<Entry<T>>, key: string)
    requires !Has(items, key)
    ensures Find(items, key) == None && Without(items, key) == items
  {
    if items != [] {
      assert items[0].key != key;
      assert forall i :: 0 <= i < |items[1..]| ==> items[1..][i] == items[i + 1];
      FindAbsent(items[1..], key);
    }
  }

  // A key is found exactly when there is an entry for it; otherwise no lookup or removal changes anything.
  lemma FoundIffHas<T>(items: seq<Entry<T>>, key: string)
    ensures Has(items, key) <==> Find(items, key).Some?
    ensures !Has(items, key) ==> Without(items, key) == items && GetSpec(items, key) == items
  {
    if !Has(items, key) {
      FindAbsent(items, key);
    }
  }

  // One lemma for both cases of a lookup: the entry's place, or that there is none.
  lemma Lookup<T>(items: seq<Entry<T>>, key: string) returns (i: nat)
    requires DistinctKeys(items)
    ensures i <= |items| && (Has(items, key) <==> i < |items|)
    ensures forall j :: 0 <= j < |items| && j != i ==> items[j].key != key
    ensures i < |items| ==> items[i].key == key && Find(items, key) == Some(items[i].value)
                            && Without(items, key) == items[..i] + items[i + 1..]
    ensures i == |items| ==> Find(items, key) == None && Without(items, key) == items
  {
    if Has(items, key) {
      i :| 0 <= i < |items| && items[i].key == key;
      FindAt(items, i);
      WithoutAt(items, i);
    } else {
      i := |items|;
      FindAbsent(items, key);
    }
  }

  lemma DroppedAt<T>(items: seq<Entry<T>>, i: nat)
    requires i < |items|
    ensures var w := items[..i] + items[i + 1..];
            forall j :: 0 <= j < |w| ==> w[j] == if j < i then items[j] else items[j + 1]
    ensures DistinctKeys(items) ==> DistinctKeys(items[..i] + items[i + 1..])
  {
    assert forall j :: 0 <= j < |items| - 1 ==>
      (items[..i] + items[i + 1..])[j] == if j < i then items[j] else items[j + 1];
  }

  // The entries other than the touched one, as the step leaves them.
  ghost function Rest<T>(items: seq<Entry<T>>, cap: nat, key: string): seq<Entry<T>>
    requires cap >= 1
  {
    if Has(items, key) then Without(items, key) else if |items| >= cap then items[..|items| - 1] else items
  }

  lemma StepFront<T>(items: seq<Entry<T>>, cap: nat, op: Op<T>)
    requires cap >= 1 && DistinctKeys(items) && (op.Put? || (op.Get? && Has(items, op.key)))
    ensures Step(items, cap, op) != [] && Step(items, cap, op)[0].key == op.key
    ensures op.Put? ==> Step(items, cap, op)[0].value == op.value
    ensures op.Get? ==> exists i :: 0 <= i < |items| && items[i] == Step(items, cap, op)[0]
    ensures Step(items, cap, op)[1..] == Rest(items, cap, op.key)
  {
    var i := Lookup(items, op.key);
    if i < |items| && op.Get? {
      assert items[i] == Step(items, cap, op)[0];
    }
  }

  lemma RestKeeps<T>(items: seq<Entry<T>>, cap: nat, key: string)
    requires cap >= 1 && DistinctKeys(items)
    ensures DistinctKeys(Rest(items, cap, key)) && (|items| <= cap ==> |Rest(items, cap, key)| < cap)
    ensures forall i :: 0 <= i < |Rest(items, cap, key)| ==> Rest(items, cap, key)[i].key != key
  {
    var i := Lookup(items, key);
    hide Find, Without;
    if i < |items| {
      DroppedAt(items, i);
    }
  }

  lemma DistinctFront<T>(rest: seq<Entry<T>>, e: Entry<T>)
    requires DistinctKeys(rest) && forall i :: 0 <= i < |rest| ==> rest[i].key != e.key
    ensures DistinctKeys([e] + rest)
  {
    assert forall i :: 1 <= i < |[e] + rest| ==> ([e] + rest)[i] == rest[i - 1];
  }

  // What every operation keeps.
  lemma StepKeeps<T>(items: seq<Entry<T>>, cap: nat, op: Op<T>)
    requires cap >= 1 && DistinctKeys(items) && |items| <= cap
    ensures DistinctKeys(Step(items, cap, op)) && |Step(items, cap, op)| <= cap
  {
    StepDistinct(items, cap, op);
    if op.Put? || (op.Get? && Has(items, op.key)) {
      StepFront(items, cap, op);
      RestKeeps(items, cap, op.key);
    } else if !op.Clear? {
      var i := Lookup(items, op.key);
    }
  }

  lemma StepDistinct<T>(items: seq<Entry<T>>, cap: nat, op: Op<T>)
    requires cap >= 1 && DistinctKeys(items)
    ensures DistinctKeys(Step(items, cap, op))
  {
    if op.Put? || (op.Get? && Has(items, op.key)) {
      StepFront(items, cap, op);
      RestKeeps(items, cap, op.key);
      var after := Step(items, cap, op);
      DistinctFront(after[1..], after[0]);
      assert after == [after[0]] + after[1..];
    } else if !op.Clear? {
      var i := Lookup(items, op.key);
      if i < |items| {
        DroppedAt(items, i);
      }
    }
  }

  // No operation invents an entry, and an erased key is gone.
  lemma StepMembers<T>(items: seq<Entry<T>>, cap: nat, op: Op<T>)
    requires cap >= 1 && DistinctKeys(items)
    ensures forall e <- Step(items, cap, op) :: e in items || (op.Put? && e == Entry(op.key, op.value))
    ensures op.Erase? ==> forall e <- Step(items, cap, op) :: e.key != op.key
  {
    if op.Put? || (op.Get? && Has(items, op.key)) {
      StepFront(items, cap, op);
      RestMembers(items, cap, op.key);
      var after := Step(items, cap, op);
      assert after == [after[0]] + after[1..];
      assert op.Put? ==> after[0] == Entry(op.key, op.value);
    } else if !op.Clear? {
      var i := Lookup(items, op.key);
      if i < |items| {
        DroppedMembers(items, i);
      }
    }
  }

  lemma DroppedMembers<T>(items: seq<Entry<T>>, i: nat)
    requires i < |items| && DistinctKeys(items)
    ensures forall e <- items[..i] + items[i + 1..] :: e in items && e.key != items[i].key
  {
  }

  lemma RestMembers<T>(items: seq<Entry<T>>, cap: nat, key: string)
    requires cap >= 1 && DistinctKeys(items)
    ensures forall e <- Rest(items, cap, key) :: e in items
  {
    var i := Lookup(items, key);
    hide Find, Without;
    if i < |items| {
      DroppedMembers(items, i);
    }
  }

  lemma FoundIsMember<T>(items: seq<Entry<T>>, key: string)
    requires DistinctKeys(items) && Find(items, key).Some?
    ensures Entry(key, Find(items, key).value) in items
  {
    var i := Lookup(items, key);
  }

  lemma {:induction false} RunKeeps<T>(history: seq<Op<T>>, cap: nat)
    requires cap >= 1
    ensures DistinctKeys(Run(history, cap)) && |Run(history, cap)| <= cap
  {
    if history != [] {
      RunKeeps(history[..|history| - 1], cap);
      StepKeeps(Run(history[..|history| - 1], cap), cap, history[|history| - 1]);
    }
  }

  // A history of puts and of gets that find their key.
  ghost predicate PutsAndHits<T>(history: seq<Op<T>>, cap: nat)
    requires cap >= 1
  {
    forall n :: 0 <= n < |history| ==>
      history[n].Put? || (history[n].Get? && Has(Run(history[..n], cap), history[n].key))
  }

  // Cutting commutes with moving entry i to the front as e, and with putting a new entry in front.
  lemma TakePromoted<T>(full: seq<Entry<T>>, cap: nat, i: nat, e: Entry<T>)
    requires cap >= 1 && i < |full|
    ensures var t := Take(full, cap);
            Take([e] + (full[..i] + full[i + 1..]), cap)
            == if i < cap then [e] + (t[..i] + t[i + 1..]) else [e] + t[..|t| - 1]
  {
  }

  lemma TakePushed<T>(full: seq<Entry<T>>, cap: nat, e: Entry<T>)
    requires cap >= 1
    ensures var t := Take(full, cap);
            Take([e] + full, cap) == if |t| >= cap then [e] + t[..|t| - 1] else [e] + t
  {
  }

  ghost function StepFull<T>(full: seq<Entry<T>>, op: Op<T>): seq<Entry<T>>
    requires op.Put? || op.Get?
  {
    if op.Put? then [Entry(op.key, op.value)] + Without(full, op.key) else GetSpec(full, op.key)
  }

  lemma LookupTake<T>(full: seq<Entry<T>>, cap: nat, key: string, i: nat)
    requires DistinctKeys(full) && i < |full| && full[i].key == key
    ensures Has(Take(full, cap), key) <==> i < cap
    ensures i < cap ==> Find(Take(full, cap), key) == Some(full[i].value)
                        && Without(Take(full, cap), key) == Take(full, cap)[..i] + Take(full, cap)[i + 1..]
    ensures i >= cap ==> Find(Take(full, cap), key) == None
  {
    var j := Lookup(Take(full, cap), key);
    if i < cap {
      assert Take(full, cap)[i].key == key;
    }
  }

  lemma StepTakes<T>(full: seq<Entry<T>>, cap: nat, op: Op<T>)
    requires cap >= 1 && DistinctKeys(full)
    requires op.Put? || (op.Get? && Has(Take(full, cap), op.key))
    ensures DistinctKeys(StepFull(full, op)) && Step(Take(full, cap), cap, op) == Take(StepFull(full, op), cap)
  {
    StepKeeps(full, |full| + 1, op);
    var i := Lookup(full, op.key);
    if i < |full| {
      LookupTake(full, cap, op.key, i);
      TakePromoted(full, cap, i, StepFull(full, op)[0]);
    } else {
      FindAbsent(Take(full, cap), op.key);
      TakePushed(full, cap, StepFull(full, op)[0]);
    }
    hide Find, Without, Has, DistinctKeys, Take;
  }

  /** The bounded cache is the front of the unbounded move-to-front list: after any run of puts and successful gets
      it holds exactly the first cap entries of that list, in its order. */
  lemma {:induction false} RunIsFrontOfMoveToFront<T>(history: seq<Op<T>>, cap: nat)
    requires cap >= 1 && PutsAndHits(history, cap)
    ensures DistinctKeys(MoveToFront(history))
    ensures Run(history, cap) == Take(MoveToFront(history), cap)
  {
    if history != [] {
      var n := |history| - 1;
      forall k | 0 <= k < n
        ensures history[..n][k].Put? || (history[..n][k].Get? && Has(Run(history[..n][..k], cap), history[..n][k].key))
      {
        assert history[..n][..k] == history[..k];
      }
      RunIsFrontOfMoveToFront(history[..n], cap);
      StepTakes(MoveToFront(history[..n]), cap, history[n]);
    }
  }

  // The value of the last put of the key, and the time of the last put or get of it (0 if there is none).
  ghost function LastPut<T>(history: seq<Op<T>>, key: string): Option<T>
  {
    if history == [] then None
    else
      var op := history[|history| - 1];
      if op.Put? && op.key == key then Some(op.value) else LastPut(history[..|history| - 1], key)
  }

  ghost function LastTouch<T>(history: seq<Op<T>>, key: string): nat
  {
    if history == [] then 0
    else
      var op := history[|history| - 1];
      if (op.Put? || op.Get?) && op.key == key then |history|
      else LastTouch(history[..|history| - 1], key)
  }

  lemma {:induction false} LastTouchBound<T>(history: seq<Op<T>>, key: string)
    ensures LastTouch(history, key) <= |history|
  {
    if history != [] {
      LastTouchBound(history[..|history| - 1], key);
    }
  }

  ghost predicate ByRecency<T>(items: seq<Entry<T>>, history: seq<Op<T>>)
  {
    && (forall i, j :: 0 <= i < j < |items| ==> LastTouch(history, items[i].key) > LastTouch(history, items[j].key))
    && (forall i :: 0 <= i < |items| ==> LastPut(history, items[i].key) == Some(items[i].value))
  }

  lemma ByRecencySame<T>(items: seq<Entry<T>>, h0: seq<Op<T>>, h1: seq<Op<T>>)
    requires ByRecency(items, h0)
    requires forall i :: 0 <= i < |items| ==> LastTouch(h0, items[i].key) == LastTouch(h1, items[i].key)
    requires forall i :: 0 <= i < |items| ==> LastPut(h0, items[i].key) == LastPut(h1, items[i].key)
    ensures ByRecency(items, h1)
  {
    hide LastTouch, LastPut;
  }

  lemma ByRecencyFront<T>(rest: seq<Entry<T>>, e: Entry<T>, h: seq<Op<T>>)
    requires ByRecency(rest, h) && LastPut(h, e.key) == Some(e.value)
    requires forall i :: 0 <= i < |rest| ==> LastTouch(h, rest[i].key) < LastTouch(h, e.key)
    ensures ByRecency([e] + rest, h)
  {
    hide LastTouch, LastPut;
    assert forall i :: 1 <= i < |[e] + rest| ==> ([e] + rest)[i] == rest[i - 1];
  }

  lemma ByRecencyDropped<T>(items: seq<Entry<T>>, i: nat, h: seq<Op<T>>)
    requires ByRecency(items, h) && i < |items|
    ensures ByRecency(items[..i] + items[i + 1..], h)
  {
    hide LastTouch, LastPut;
    DroppedAt(items, i);
  }

  lemma RestByRecency<T>(items: seq<Entry<T>>, cap: nat, key: string, h: seq<Op<T>>)
    requires cap >= 1 && DistinctKeys(items) && ByRecency(items, h)
    ensures ByRecency(Rest(items, cap, key), h)
  {
    var i := Lookup(items, key);
    hide LastTouch, LastPut, Find, Without;
    if i < |items| {
      ByRecencyDropped(items, i, h);
    }
  }

  // What one operation does to the times and values of the keys.
  lemma TouchStep<T>(history: seq<Op<T>>, op: Op<T>, key: string)
    ensures LastTouch(history, key) <= |history|
    ensures op.Clear? || op.Erase? || key != op.key
            ==> LastTouch(history + [op], key) == LastTouch(history, key)
                && LastPut(history + [op], key) == LastPut(history, key)
    ensures (op.Put? || op.Get?) && key == op.key ==> LastTouch(history + [op], key) == |history| + 1
    ensures op.Put? && key == op.key ==> LastPut(history + [op], key) == Some(op.value)
    ensures op.Get? ==> LastPut(history + [op], key) == LastPut(history, key)
  {
    LastTouchBound(history, key);
    assert (history + [op])[..|history|] == history;
  }

  lemma StepByRecency<T>(history: seq<Op<T>>, cap: nat, op: Op<T>, items: seq<Entry<T>>)
    requires cap >= 1 && DistinctKeys(items) && |items| <= cap && ByRecency(items, history)
    ensures ByRecency(Step(items, cap, op), history + [op])
  {
    forall key {
      TouchStep(history, op, key);
    }
    hide LastTouch, LastPut;
    if op.Put? || (op.Get? && Has(items, op.key)) {
      StepFront(items, cap, op);
      RestByRecency(items, cap, op.key, history);
      RestKeeps(items, cap, op.key);
      var after := Step(items, cap, op);
      ByRecencySame(after[1..], history, history + [op]);
      ByRecencyFront(after[1..], after[0], history + [op]);
      assert after == [after[0]] + after[1..];
    } else if op.Clear? {
    } else {
      var i := Lookup(items, op.key);
      ByRecencySame(items, history, history + [op]);
      if i < |items| {
        ByRecencyDropped(items, i, history + [op]);
      }
    }
  }

  /** After any history, erasures and clearing included, the list runs from the most to the least recently touched
      key, and every entry carries the last value put for its key. */
  lemma {:induction false} RunByRecency<T>(history: seq<Op<T>>, cap: nat)
    requires cap >= 1
    ensures ByRecency(Run(history, cap), history)
  {
    if history != [] {
      var n := |history| - 1;
      RunByRecency(history[..n], cap);
      RunKeeps(history[..n], cap);
      StepByRecency(history[..n], cap, history[n], Run(history[..n], cap));
      assert history == history[..n] + [history[n]];
    }
  }

  /** Whatever an operation other than an erasure evicts, a put evicts it, from a full cache, and it was touched before
      every key then present. */
  lemma EvictedIsOldest<T>(history: seq<Op<T>>, cap: nat, op: Op<T>, evicted: string, kept: string)
    requires cap >= 1
    requires Has(Run(history, cap), evicted) && !Has(Run(history + [op], cap), evicted)
    requires Has(Run(history + [op], cap), kept)
    requires op != Erase(evicted)
    ensures op.Put? && |Run(history, cap)| == cap
    ensures LastTouch(history, evicted) < LastTouch(history + [op], kept)
  {
    var before := Run(history, cap);
    assert (history + [op])[..|history|] == history;
    RunKeeps(history, cap);
    RunByRecency(history, cap);
    TouchStep(history, op, evicted);
    TouchStep(history, op, kept);
    var e := Lookup(before, evicted);
    if !(op.Put? && |before| == cap && e == |before| - 1 && !Has(before, op.key)) {
      Survives(before, cap, op, e);
    }
    if kept != op.key {
      var k := Lookup(before, kept);
      KeptWasThere(before, cap, op, kept);
    }
  }

  lemma InRest<T>(items: seq<Entry<T>>, cap: nat, key: string, e: nat)
    requires cap >= 1 && DistinctKeys(items) && |items| <= cap && e < |items| && items[e].key != key
    requires Has(items, key) || |items| < cap || e < |items| - 1
    ensures Has(Rest(items, cap, key), items[e].key)
  {
    var i := Lookup(items, key);
    var rest := Rest(items, cap, key);
    hide Find, Without;
    if i < |items| {
      DroppedAt(items, i);
      assert rest[if e < i then e else e - 1] == items[e];
    } else {
      assert rest[e] == items[e];
    }
  }

  // An entry is lost only to its own erasure, to a clear, or as the last one when a put finds the cache full.
  lemma Survives<T>(items: seq<Entry<T>>, cap: nat, op: Op<T>, e: nat)
    requires cap >= 1 && DistinctKeys(items) && |items| <= cap && e < |items|
    requires op != Erase(items[e].key) && op != Clear
    requires !(op.Put? && |items| == cap && e == |items| - 1 && !Has(items, op.key))
    ensures Has(Step(items, cap, op), items[e].key)
  {
    var after := Step(items, cap, op);
    if op.Erase? {
      var i := Lookup(items, op.key);
      hide Find, Without;
      if i < |items| {
        DroppedAt(items, i);
      }
      assert after[if e < i then e else e - 1] == items[e];
    } else if op.Get? && !Has(items, op.key) {
      FindAbsent(items, op.key);
    } else {
      StepFront(items, cap, op);
      hide Step, Rest, Find, Without;
      if items[e].key != op.key {
        InRest(items, cap, op.key, e);
        var r :| 0 <= r < |after[1..]| && after[1..][r].key == items[e].key;
        assert after[r + 1].key == items[e].key;
      }
    }
  }

  lemma KeptWasThere<T>(items: seq<Entry<T>>, cap: nat, op: Op<T>, kept: string)
    requires cap >= 1 && DistinctKeys(items) && op.Put? && !Has(items, op.key) && |items| == cap
    requires Has(Step(items, cap, op), kept) && kept != op.key
    ensures exists i :: 0 <= i < |items| - 1 && items[i].key == kept
  {
    FindAbsent(items, op.key);
    var after := Step(items, cap, op);
    var k :| 0 <= k < |after| && after[k].key == kept;
    assert items[k - 1].key == kept;
  }
}
