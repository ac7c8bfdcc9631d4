/** What an outage costs: nothing while the buffer holds it and the drain succeeds; otherwise exactly what is said
    here. */
module StateSyncProofs {
  import opened Lists
  import opened StateSync

  /** The store after the items are synchronised in order, with nothing failing. */
  function ApplyAll(st: Store, items: seq<Item>): Store
    decreases |items|
  {
    if items == [] then st else ApplyAll(Attempt(st, items[0], Up), items[1..])
  }

  /** The same, for the latest states alone. */
  function Latest(latest: map<string, string>, items: seq<Item>): map<string, string>
    decreases |items|
  {
    if items == [] then latest else Latest(latest[items[0].key := items[0].state], items[1..])
  }

  lemma {:induction false} ApplyAllLatest(st: Store, items: seq<Item>)
    ensures ApplyAll(st, items).latest == Latest(st.latest, items)
    decreases |items|
  {
    if items != [] {
      ApplyAllLatest(Attempt(st, items[0], Up), items[1..]);
    }
  }

  // ---------- the history ----------

  /** The first hundred of a list. */
  function Newest(states: seq<string>): seq<string> {
    if |states| <= 100 then states else states[..100]
  }

  /** What an attempt leaves behind, by how far it gets. */
  lemma AttemptExactly(st: Store, it: Item, r: Redis)
    ensures r.Unreachable? || r.FailsAtSet? ==> Attempt(st, it, r) == st
    ensures r.FailsAtPush? || r.FailsAtTrim? || r.FailsAtStamp? || r.Up? ==>
              Attempt(st, it, r).latest == st.latest[it.key := it.state]
    ensures r.FailsAtPush? ==> Attempt(st, it, r).history == st.history
    ensures r.FailsAtTrim? ==>
              Attempt(st, it, r).history == st.history[it.key := [it.state] + HistoryOf(st, it.key)]
    ensures r.FailsAtStamp? || r.Up? ==>
              Attempt(st, it, r).history == st.history[it.key := Newest([it.state] + HistoryOf(st, it.key))]
  {
  }

  /** The states written under a key, newest first. */
  function StatesOf(items: seq<Item>, key: string): seq<string> {
    if items == [] then []
    else StatesOf(items[1..], key) + if items[0].key == key then [items[0].state] else []
  }

  lemma NewestOfNewest(a: seq<string>, b: seq<string>)
    ensures Newest(a + Newest(b)) == Newest(a + b)
  {
  }

  /** Each key's history is the last hundred states written under it, newest first. */
  lemma {:induction false} HistoryIsNewestFirst(st: Store, items: seq<Item>, key: string)
    requires |HistoryOf(st, key)| <= 100
    ensures HistoryOf(ApplyAll(st, items), key) == Newest(StatesOf(items, key) + HistoryOf(st, key))
    decreases |items|
  {
    if items == [] {
      assert [] + HistoryOf(st, key) == HistoryOf(st, key);
    } else {
      hide Attempt, Newest, HistoryOf;
      var it, rest := items[0], StatesOf(items[1..], key);
      OneMoreState(st, it, key);
      HistoryIsNewestFirst(Attempt(st, it, Up), items[1..], key);
      if it.key == key {
        NewestOfNewest(rest, [it.state] + HistoryOf(st, key));
        assert rest + ([it.state] + HistoryOf(st, key)) == (rest + [it.state]) + HistoryOf(st, key);
      } else {
        assert rest + [] == rest;
      }
    }
  }

  lemma OneMoreState(st: Store, it: Item, key: string)
    ensures var h := HistoryOf(Attempt(st, it, Up), key);
            && h == (if it.key == key then Newest([it.state] + HistoryOf(st, key)) else HistoryOf(st, key))
            && (|HistoryOf(st, key)| <= 100 ==> |h| <= 100)
  {
    hide Attempt;
    AttemptExactly(st, it, Up);
  }

  // ---------- an outage that fits the buffer ----------

  /** Every item written while Redis cannot be reached. */
  function Outage(s: Sync, items: seq<Item>, most: nat): Sync
    decreases |items|
  {
    if items == [] then s else Outage(Write(s, items[0], Unreachable, most), items[1..], most)
  }

  /** The buffer holds the last `most` of everything put into it. */
  lemma {:induction false} OutageKeepsTheLast(s: Sync, items: seq<Item>, most: nat)
    requires 0 < most && |s.buffer| <= most
    ensures Outage(s, items, most) == s.(buffer := LastOf(s.buffer + items, most))
    decreases |items|
  {
    if items == [] {
      assert s.buffer + items == s.buffer;
    } else {
      var t := Write(s, items[0], Unreachable, most);
      OutageKeepsTheLast(t, items[1..], most);
      EnqueueKeepsTheLast(s.buffer, items, most);
      hide LastOf;
    }
  }

  lemma EnqueueKeepsTheLast(buffer: seq<Item>, items: seq<Item>, most: nat)
    requires 0 < most && |buffer| <= most && items != []
    ensures |Enqueue(buffer, items[0], most)| <= most
    ensures LastOf(Enqueue(buffer, items[0], most) + items[1..], most) == LastOf(buffer + items, most)
  {
    var longer := Enqueue(buffer, items[0], most) + items[1..];
    if |buffer| < most {
      assert longer == buffer + items;
    } else {
      assert longer == (buffer + items)[1..];
    }
  }

  /** A drain without failures synchronises the buffer in order. */
  lemma {:induction false} DrainInOrder(s: Sync, most: nat)
    requires |s.buffer| <= most
    ensures Drain(s, [], most) == Sync(ApplyAll(s.store, s.buffer), [])
    decreases |s.buffer|
  {
    if s.buffer != [] {
      DrainInOrder(Turn(s, Up, most), most);
    }
  }

  /** If the buffer can hold what is written during the outage, draining it leaves the store as with no outage. */
  lemma OutageIsInvisible(st: Store, items: seq<Item>, most: nat)
    requires 0 < most && |items| <= most
    ensures |Outage(Sync(st, []), items, most).buffer| <= most
    ensures Drain(Outage(Sync(st, []), items, most), [], most) == Sync(ApplyAll(st, items), [])
  {
    OutageKeepsTheLast(Sync(st, []), items, most);
    assert [] + items == items;
    DrainInOrder(Outage(Sync(st, []), items, most), most);
  }

  // ---------- an outage that overflows the buffer ----------

  ghost predicate Written(items: seq<Item>, key: string) {
    exists i :: 0 <= i < |items| && items[i].key == key
  }

  lemma {:induction false} LatestElsewhere(latest: map<string, string>, items: seq<Item>, key: string)
    requires !Written(items, key)
    ensures key in Latest(latest, items) <==> key in latest
    ensures key in latest ==> Latest(latest, items)[key] == latest[key]
    decreases |items|
  {
    if items != [] {
      assert items[0].key != key;
      assert forall i :: 0 <= i < |items| - 1 ==> items[1..][i] == items[i + 1];
      LatestElsewhere(latest[items[0].key := items[0].state], items[1..], key);
    }
  }

  lemma {:induction false} LatestAppend(latest: map<string, string>, a: seq<Item>, b: seq<Item>)
    ensures Latest(latest, a + b) == Latest(Latest(latest, a), b)
    decreases |a|
  {
    if a == [] {
      assert a + b == b;
    } else {
      assert (a + b)[1..] == a[1..] + b;
      LatestAppend(latest[a[0].key := a[0].state], a[1..], b);
    }
  }

  /** The value of a written key is that of its last write. */
  lemma LatestIsLastWrite(latest: map<string, string>, items: seq<Item>, i: nat)
    requires i < |items| && !Written(items[i + 1..], items[i].key)
    ensures items[i].key in Latest(latest, items) && Latest(latest, items)[items[i].key] == items[i].state
  {
    var before := Latest(latest, items[..i]);
    assert items == items[..i] + [items[i]] + items[i + 1..];
    LatestAppend(latest, items[..i] + [items[i]], items[i + 1..]);
    LatestAppend(latest, items[..i], [items[i]]);
    assert Latest(before, [items[i]]) == before[items[i].key := items[i].state];
    LatestElsewhere(before[items[i].key := items[i].state], items[i + 1..], items[i].key);
  }

  /** Two maps agree on a key: both miss it, or both have it with the same value. */
  predicate SameAt(m: map<string, string>, n: map<string, string>, key: string) {
    (key in m <==> key in n) && (key in m ==> m[key] == n[key])
  }

  lemma MapsEqual(m: map<string, string>, n: map<string, string>)
    requires forall key :: SameAt(m, n, key)
    ensures m == n
  {
    assert forall key :: key in m ==> SameAt(m, n, key);
    assert forall key :: key in n ==> SameAt(m, n, key);
  }

  /**
    When the buffer overflows, the latest states come out as with no outage exactly when each key whose last write was
    dropped already stood at that value before the outage.
  */
  lemma OverflowLosesExactly(st: Store, items: seq<Item>, most: nat)
    requires 0 < most < |items|
    ensures |Outage(Sync(st, []), items, most).buffer| <= most
    ensures var dropped, kept := items[..|items| - most], items[|items| - most..];
            Drain(Outage(Sync(st, []), items, most), [], most).store.latest == ApplyAll(st, items).latest <==>
            forall key :: Written(dropped, key) && !Written(kept, key) ==>
              SameAt(Latest(st.latest, dropped), st.latest, key)
  {
    hide Outage, Drain, ApplyAll, Latest, Written;
    var dropped, kept := items[..|items| - most], items[|items| - most..];
    var drained := Outage(Sync(st, []), items, most);
    OutageKeepsTheLast(Sync(st, []), items, most);
    assert [] + items == items && dropped + kept == items;
    DrainInOrder(drained, most);
    ApplyAllLatest(st, kept);
    ApplyAllLatest(st, items);
    LatestAppend(st.latest, dropped, kept);
    SameAfter(Latest(st.latest, dropped), st.latest, kept);
    forall key | !Written(dropped, key)
      ensures SameAt(Latest(st.latest, dropped), st.latest, key)
    {
      LatestElsewhere(st.latest, dropped, key);
    }
  }

  /** Two maps come out equal exactly when they agree on every key that is not written. */
  lemma SameAfter(m: map<string, string>, n: map<string, string>, items: seq<Item>)
    ensures Latest(m, items) == Latest(n, items) <==> forall key :: !Written(items, key) ==> SameAt(m, n, key)
  {
    forall key
      ensures SameAt(Latest(m, items), Latest(n, items), key) <==> Written(items, key) || SameAt(m, n, key)
    {
      if Written(items, key) {
        var i := LastWrite(items, key);
        LatestIsLastWrite(m, items, i);
        LatestIsLastWrite(n, items, i);
      } else {
        LatestElsewhere(m, items, key);
        LatestElsewhere(n, items, key);
      }
    }
    if forall key :: !Written(items, key) ==> SameAt(m, n, key) {
      MapsEqual(Latest(m, items), Latest(n, items));
    }
  }

  lemma LastWrite(items: seq<Item>, key: string) returns (i: nat)
    requires Written(items, key)
    ensures i < |items| && items[i].key == key && !Written(items[i + 1..], key)
  {
    i := |items| - 1;
    while items[i].key != key
      invariant i < |items| && !Written(items[i + 1..], key)
      invariant exists j :: 0 <= j <= i && items[j].key == key
      decreases i
    {
      assert forall j :: 0 <= j < |items| - i ==> items[i..][j] == if j == 0 then items[i] else items[i + 1..][j - 1];
      i := i - 1;
    }
  }

  // ---------- a store that comes and goes ----------

  datatype Call = Call(item: Item, redis: Redis)

  /** A list of writes, each with how far it gets. */
  function WriteAll(s: Sync, calls: seq<Call>, most: nat): Sync {
    if calls == [] then s
    else
      var n := |calls| - 1;
      Write(WriteAll(s, calls[..n], most), calls[n].item, calls[n].redis, most)
  }

  function Items(calls: seq<Call>): (r: seq<Item>)
    ensures |r| == |calls| && forall i :: 0 <= i < |r| ==> r[i] == calls[i].item
  {
    seq(|calls|, i requires 0 <= i < |calls| => calls[i].item)
  }

  /** The items whose writes failed, in order. */
  function Failed(calls: seq<Call>): seq<Item> {
    if calls == [] then []
    else
      var n := |calls| - 1;
      Failed(calls[..n]) + if calls[n].redis.Up? then [] else [calls[n].item]
  }

  lemma LatestGrows(latest: map<string, string>, items: seq<Item>, it: Item)
    ensures Latest(latest, items + [it]) == Latest(latest, items)[it.key := it.state]
  {
    LatestAppend(latest, items, [it]);
    assert Latest(Latest(latest, items), [it]) == Latest(Latest(latest, items)[it.key := it.state], []);
  }

  lemma WrittenGrows(items: seq<Item>, it: Item, key: string)
    ensures Written(items + [it], key) <==> Written(items, key) || it.key == key
  {
    var all := items + [it];
    assert all[|items|] == it;
    if Written(items, key) {
      var i :| 0 <= i < |items| && items[i].key == key;
      assert all[i].key == key;
    }
  }

  lemma LastCall(s: Sync, calls: seq<Call>, most: nat)
    requires calls != []
    ensures var n := |calls| - 1;
            var it := calls[n].item;
            && WriteAll(s, calls, most) == Write(WriteAll(s, calls[..n], most), it, calls[n].redis, most)
            && Failed(calls) == Failed(calls[..n]) + (if calls[n].redis.Up? then [] else [it])
            && Items(calls) == Items(calls[..n]) + [it]
  {
    hide Write;
  }

  lemma WriteLeaves(s: Sync, latest: map<string, string>, it: Item, r: Redis, most: nat)
    requires |s.buffer| < most || r.Up?
    requires forall key :: !Written(s.buffer, key) ==> SameAt(s.store.latest, latest, key)
    ensures var t := Write(s, it, r, most);
            && t.buffer == s.buffer + (if r.Up? then [] else [it])
            && forall key :: !Written(t.buffer, key) ==> SameAt(t.store.latest, latest[it.key := it.state], key)
  {
    hide Written, Attempt;
    AttemptOnLatest(s.store, it, r);
    forall key
      ensures Written(s.buffer + [it], key) <==> Written(s.buffer, key) || it.key == key
    {
      WrittenGrows(s.buffer, it, key);
    }
  }

  /** What fails waits in the buffer, and a key none of whose writes failed is as up to date as with no failure. */
  lemma {:induction false} WriteAllLeaves(st: Store, calls: seq<Call>, most: nat)
    requires |Failed(calls)| <= most
    ensures WriteAll(Sync(st, []), calls, most).buffer == Failed(calls)
    ensures forall key :: !Written(Failed(calls), key) ==>
              SameAt(WriteAll(Sync(st, []), calls, most).store.latest, Latest(st.latest, Items(calls)), key)
  {
    hide Written, Write;
    if calls != [] {
      var n := |calls| - 1;
      var front, it := calls[..n], calls[n].item;
      LastCall(Sync(st, []), calls, most);
      hide *;
      WriteAllLeaves(st, front, most);
      LatestGrows(st.latest, Items(front), it);
      WriteLeaves(WriteAll(Sync(st, []), front, most), Latest(st.latest, Items(front)), it, calls[n].redis, most);
    }
  }

  lemma AttemptOnLatest(st: Store, it: Item, r: Redis)
    ensures r.Up? ==> Attempt(st, it, r).latest == st.latest[it.key := it.state]
    ensures Attempt(st, it, r).latest == st.latest || Attempt(st, it, r).latest == st.latest[it.key := it.state]
  {
  }

  /**
    Writes that fail now and then, and an undisturbed drain after them, leave the latest states as with no failure
    exactly when, for every key of which a write failed, the last failed write has the state of the last write: a newer
    write that got through is undone by an older one that waited.
  */
  lemma DrainAfterFailuresExactly(st: Store, calls: seq<Call>, most: nat)
    requires |Failed(calls)| <= most
    ensures var s := WriteAll(Sync(st, []), calls, most);
            |s.buffer| <= most
            && (Drain(s, [], most).store.latest == ApplyAll(st, Items(calls)).latest <==>
                forall key :: Written(Failed(calls), key) ==>
                  SameAt(Latest(map[], Failed(calls)), Latest(map[], Items(calls)), key))
  {
    hide Written, Push, Trim, WriteAll, Items, Failed, Latest, ApplyAll, Drain;
    var s := WriteAll(Sync(st, []), calls, most);
    var failed, items := Failed(calls), Items(calls);
    WriteAllLeaves(st, calls, most);
    DrainInOrder(s, most);
    ApplyAllLatest(s.store, failed);
    ApplyAllLatest(st, items);
    var drained, wanted := Latest(s.store.latest, failed), Latest(st.latest, items);
    forall key
      ensures Written(failed, key) ==> SameAt(drained, Latest(map[], failed), key)
      ensures Written(failed, key) ==> SameAt(wanted, Latest(map[], items), key)
      ensures !Written(failed, key) ==> SameAt(drained, wanted, key)
    {
      if Written(failed, key) {
        FailedWereWritten(calls, key);
        LatestForgets(s.store.latest, map[], failed, key);
        LatestForgets(st.latest, map[], items, key);
      } else {
        LatestElsewhere(s.store.latest, failed, key);
      }
    }
    SameEverywhere(drained, wanted);
  }

  /** Such as here: the newer state gets through, and draining the older one puts it back. */
  lemma OlderStateReturns(st: Store, older: Item, newer: Item, most: nat)
    requires 0 < most && older.key == newer.key
    ensures var s := WriteAll(Sync(st, []), [Call(older, Unreachable), Call(newer, Up)], most);
            && s.buffer == [older] && s.store.latest == st.latest[newer.key := newer.state]
            && Drain(s, [], most).store.latest == st.latest[older.key := older.state]
  {
    var calls := [Call(older, Unreachable), Call(newer, Up)];
    assert calls[..1] == [calls[0]] && calls[..1][..0] == [];
    var s := WriteAll(Sync(st, []), calls, most);
    assert WriteAll(Sync(st, []), [calls[0]], most) == Sync(st, [older]);
    AttemptOnLatest(st, newer, Up);
    assert s == Sync(Attempt(st, newer, Up), [older]);
    hide Push, Trim;
    DrainInOrder(s, most);
    ApplyAllLatest(s.store, s.buffer);
    assert Latest(s.store.latest, [older]) == Latest(s.store.latest[older.key := older.state], []);
  }

  /** Of a key that is written, what was there before does not matter. */
  lemma LatestForgets(m: map<string, string>, n: map<string, string>, items: seq<Item>, key: string)
    requires Written(items, key)
    ensures SameAt(Latest(m, items), Latest(n, items), key)
  {
    var i := LastWrite(items, key);
    LatestIsLastWrite(m, items, i);
    LatestIsLastWrite(n, items, i);
  }

  lemma {:induction false} FailedWereWritten(calls: seq<Call>, key: string)
    ensures Written(Failed(calls), key) ==> Written(Items(calls), key)
  {
    hide Written;
    if calls == [] {
      NothingWritten(key);
    } else {
      var n := |calls| - 1;
      FailedWereWritten(calls[..n], key);
      WrittenGrows(Failed(calls[..n]), calls[n].item, key);
      WrittenGrows(Items(calls[..n]), calls[n].item, key);
      assert Items(calls) == Items(calls[..n]) + [calls[n].item];
      assert Failed(calls[..n]) + [] == Failed(calls[..n]);
    }
  }

  lemma NothingWritten(key: string)
    ensures !Written([], key)
  {
  }

  lemma SameEverywhere(m: map<string, string>, n: map<string, string>)
    ensures m == n <==> forall key :: SameAt(m, n, key)
  {
    if forall key :: SameAt(m, n, key) {
      MapsEqual(m, n);
    }
  }

  // ---------- failures during the drain ----------

  /** No key is buffered with two different states. */
  ghost predicate Agree(items: seq<Item>) {
    forall i, j :: 0 <= i < |items| && 0 <= j < |items| && items[i].key == items[j].key ==>
      items[i].state == items[j].state
  }

  lemma LatestOfAgreeing(latest: map<string, string>, items: seq<Item>, i: nat)
    requires Agree(items) && i < |items|
    ensures items[i].key in Latest(latest, items) && Latest(latest, items)[items[i].key] == items[i].state
  {
    var j := LastWrite(items, items[i].key);
    LatestIsLastWrite(latest, items, j);
  }

  /** Putting the first of agreeing items last, having possibly written it already, changes no latest state. */
  lemma RotationIsHarmless(latest: map<string, string>, written: map<string, string>, items: seq<Item>)
    requires items != [] && Agree(items)
    requires written == latest || written == latest[items[0].key := items[0].state]
    ensures Agree(items[1..] + [items[0]])
    ensures Latest(written, items[1..] + [items[0]]) == Latest(latest, items)
  {
    var turned := items[1..] + [items[0]];
    assert forall i :: 0 <= i < |items| ==> turned[i] == items[if i + 1 < |items| then i + 1 else 0];
    forall key
      ensures SameAt(Latest(written, turned), Latest(latest, items), key)
    {
      if i :| 0 <= i < |items| && items[i].key == key {
        LatestOfAgreeing(latest, items, i);
        var j := if i == 0 then |items| - 1 else i - 1;
        assert turned[j] == items[i];
        LatestOfAgreeing(written, turned, j);
      } else {
        LatestElsewhere(latest, items, key);
        LatestElsewhere(written, turned, key);
      }
    }
    MapsEqual(Latest(written, turned), Latest(latest, items));
  }

  lemma {:induction false} AgreeingDrain(s: Sync, schedule: seq<Redis>, most: nat)
    requires 0 < most && |s.buffer| <= most && Agree(s.buffer)
    ensures Drain(s, schedule, most).store.latest == Latest(s.store.latest, s.buffer)
    decreases |s.buffer| + Failures(schedule)
  {
    if s.buffer != [] {
      var r := Next(schedule);
      var t := Turn(s, r, most);
      if !r.Up? {
        RotationIsHarmless(s.store.latest, t.store.latest, s.buffer);
      } else {
        assert forall i :: 0 <= i < |t.buffer| ==> t.buffer[i] == s.buffer[i + 1];
      }
      AgreeingDrain(t, Later(schedule), most);
    }
  }

  /** The schedule on which the first n attempts succeed. */
  function Ups(n: nat): seq<Redis> {
    seq(n, _ => Up)
  }

  lemma FailedTurn(s: Sync, most: nat)
    requires 0 < |s.buffer| <= most
    ensures Turn(s, FailsAtSet, most) == Sync(s.store, s.buffer[1..] + [s.buffer[0]])
  {
  }

  lemma GoodTurn(s: Sync, most: nat)
    requires 0 < |s.buffer| <= most
    ensures Turn(s, Up, most) == Sync(Attempt(s.store, s.buffer[0], Up), s.buffer[1..])
  {
  }

  /** If only the attempt at item i fails, and fails at once, item i is synchronised last. */
  lemma {:induction false} OneFailure(s: Sync, i: nat, most: nat)
    requires i < |s.buffer| <= most
    ensures Drain(s, Ups(i) + [FailsAtSet], most).store
         == ApplyAll(s.store, s.buffer[..i] + s.buffer[i + 1..] + [s.buffer[i]])
    decreases i
  {
    hide Attempt, Turn;
    var schedule := Ups(i) + [FailsAtSet];
    var moved := s.buffer[..i] + s.buffer[i + 1..] + [s.buffer[i]];
    if i == 0 {
      assert schedule[0] == FailsAtSet && schedule[1..] == [];
      var t := Turn(s, FailsAtSet, most);
      FailedTurn(s, most);
      assert t.buffer == moved;
      DrainInOrder(t, most);
    } else {
      assert schedule[0] == Up && schedule[1..] == Ups(i - 1) + [FailsAtSet];
      var t := Turn(s, Up, most);
      GoodTurn(s, most);
      OneFailure(t, i - 1, most);
      assert moved[1..] == t.buffer[..i - 1] + t.buffer[i..] + [t.buffer[i - 1]];
    }
  }

  /** A buffer that disagrees about a key has an early write of it that differs from the last. */
  lemma DisagreeingWrite(items: seq<Item>) returns (i: nat, last: nat)
    requires !Agree(items)
    ensures i < last < |items| && items[i].key == items[last].key && items[i].state != items[last].state
    ensures !Written(items[last + 1..], items[last].key)
  {
    var a, b :| 0 <= a < |items| && 0 <= b < |items| && items[a].key == items[b].key && items[a].state != items[b].state;
    last := LastWrite(items, items[a].key);
    i := if items[a].state != items[last].state then a else b;
    forall x | last < x < |items|
      ensures Written(items[last + 1..], items[x].key)
    {
      assert items[last + 1..][x - last - 1] == items[x];
    }
  }

  /**
    Draining gives the latest states of the buffered writes, whichever attempts fail on the way, exactly when no key is
    buffered with two different states: a failed write goes back to the end, behind newer ones of its key.
  */
  lemma DrainIsRobustExactlyIfAgreeing(s: Sync, most: nat)
    requires 0 < most && |s.buffer| <= most
    ensures (forall schedule :: Drain(s, schedule, most).store.latest == ApplyAll(s.store, s.buffer).latest)
       <==> Agree(s.buffer)
  {
    ApplyAllLatest(s.store, s.buffer);
    if Agree(s.buffer) {
      forall schedule
        ensures Drain(s, schedule, most).store.latest == ApplyAll(s.store, s.buffer).latest
      {
        AgreeingDrain(s, schedule, most);
      }
    } else {
      var i, last := DisagreeingWrite(s.buffer);
      var moved := s.buffer[..i] + s.buffer[i + 1..] + [s.buffer[i]];
      OneFailure(s, i, most);
      ApplyAllLatest(s.store, moved);
      assert moved[|moved| - 1] == s.buffer[i] && moved[|moved|..] == [];
      LatestIsLastWrite(s.store.latest, moved, |moved| - 1);
      LatestIsLastWrite(s.store.latest, s.buffer, last);
      assert Drain(s, Ups(i) + [FailsAtSet], most).store.latest != ApplyAll(s.store, s.buffer).latest;
    }
  }

  // ---------- termination ----------

  /** The first |schedule| turns of the drain loop, or fewer if the buffer empties. */
  function Turns(s: Sync, schedule: seq<Redis>, most: nat): Sync
    decreases |schedule|
  {
    if schedule == [] || s.buffer == [] then s else Turns(Turn(s, schedule[0], most), schedule[1..], most)
  }

  function Successes(schedule: seq<Redis>): nat {
    if schedule == [] then 0 else Successes(schedule[1..]) + if schedule[0].Up? then 1 else 0
  }

  /** Every successful attempt shortens the buffer by one until it is empty, and no failed one does. */
  lemma {:induction false} TurnsLeaveExactly(s: Sync, schedule: seq<Redis>, most: nat)
    requires 0 < most && |s.buffer| <= most
    ensures |Turns(s, schedule, most).buffer| ==
            if Successes(schedule) >= |s.buffer| then 0 else |s.buffer| - Successes(schedule)
    decreases |schedule|
  {
    if schedule != [] && s.buffer != [] {
      TurnsLeaveExactly(Turn(s, schedule[0], most), schedule[1..], most);
    }
  }

  /** The drain has ended after the attempts of a schedule exactly when as many succeeded as there were items. */
  lemma DrainEndsExactly(s: Sync, schedule: seq<Redis>, most: nat)
    requires 0 < most && |s.buffer| <= most
    ensures Turns(s, schedule, most).buffer == [] <==> Successes(schedule) >= |s.buffer|
  {
    TurnsLeaveExactly(s, schedule, most);
  }

  /** So while Redis is down the loop does not end, however often it turns. */
  lemma NoEndWhileDown(s: Sync, schedule: seq<Redis>, most: nat)
    requires 0 < most && 0 < |s.buffer| <= most && forall r :: r in schedule ==> !r.Up?
    ensures |Turns(s, schedule, most).buffer| == |s.buffer|
  {
    AllFailed(schedule);
    TurnsLeaveExactly(s, schedule, most);
  }

  lemma {:induction false} AllFailed(schedule: seq<Redis>)
    requires forall r :: r in schedule ==> !r.Up?
    ensures Successes(schedule) == 0
  {
    if schedule != [] {
      assert schedule[0] in schedule;
      AllFailed(schedule[1..]);
    }
  }
}
