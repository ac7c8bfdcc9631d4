/**
  The state synchroniser and its bounded buffer (backend/infrastructure/state_sync.py).  A synchronisation writes the
  latest state of a key, pushes it on the key's history, trims that and stamps the node; it may fail between any two
  of these.  States are the JSON text that is stored.
*/
module StateSync {
  import opened Options

  datatype Item = Item(key: string, state: string)

  /** The latest state of each key, and each key's last states, newest first. */
  datatype Store = Store(latest: map<string, string>, history: map<string, seq<string>>)

  /** How far one synchronisation attempt gets. */
  datatype Redis = Unreachable | FailsAtSet | FailsAtPush | FailsAtTrim | FailsAtStamp | Up

  const HISTORY := 100

  function HistoryOf(st: Store, key: string): seq<string> {
    if key in st.history then st.history[key] else []
  }

  function SetLatest(st: Store, it: Item): Store {
    st.(latest := st.latest[it.key := it.state])
  }

  function Push(st: Store, it: Item): Store {
    st.(history := st.history[it.key := [it.state] + HistoryOf(st, it.key)])
  }

  function Trim(st: Store, key: string): Store {
    var h := HistoryOf(st, key);
    st.(history := st.history[key := if |h| > HISTORY then h[..HISTORY] else h])
  }

  function Attempt(st: Store, it: Item, r: Redis): Store {
    match r
    case Unreachable => st
    case FailsAtSet => st
    case FailsAtPush => SetLatest(st, it)
    case FailsAtTrim => Push(SetLatest(st, it), it)
    case _ => Trim(Push(SetLatest(st, it), it), it.key)
  }

  /** A buffer of at most `most` items that drops its oldest to make room. */
  function Enqueue(buffer: seq<Item>, it: Item, most: nat): seq<Item> {
    if |buffer| >= most && buffer != [] then buffer[1..] + [it] else buffer + [it]
  }

  datatype Sync = Sync(store: Store, buffer: seq<Item>)

  /** One call of sync_state. */
  function Write(s: Sync, it: Item, r: Redis, most: nat): Sync {
    Sync(Attempt(s.store, it, r), if r.Up? then s.buffer else Enqueue(s.buffer, it, most))
  }

  function Failures(schedule: seq<Redis>): nat {
    if schedule == [] then 0 else Failures(schedule[1..]) + if schedule[0].Up? then 0 else 1
  }

  /** The outcome of the next attempt: as scheduled, and success once the schedule has run out. */
  function Next(schedule: seq<Redis>): Redis {
    if schedule == [] then Up else schedule[0]
  }

  function Later(schedule: seq<Redis>): seq<Redis> {
    if schedule == [] then [] else schedule[1..]
  }

  /** One turn of the drain loop on a non-empty buffer. */
  function Turn(s: Sync, r: Redis, most: nat): Sync
    requires s.buffer != []
  {
    Write(s.(buffer := s.buffer[1..]), s.buffer[0], r, most)
  }

  /** The drain loop; every turn either shortens the buffer or uses up one of the scheduled failures. */
  function Drain(s: Sync, schedule: seq<Redis>, most: nat): Sync
    requires |s.buffer| <= most
    decreases |s.buffer| + Failures(schedule)
  {
    if s.buffer == [] then s else Drain(Turn(s, Next(schedule), most), Later(schedule), most)
  }

  // ---------- the objects ----------

  class StateBuffer {
    const maxSize: nat
    var items: seq<Item>

    ghost predicate Valid()
      reads this
    {
      |items| <= maxSize
    }

    constructor (maxSize: nat)
      ensures Valid() && items == [] && this.maxSize == maxSize
    {
      this.maxSize, items := maxSize, [];
    }

    /** Raises, leaving the buffer empty, if it can hold nothing. */
    method Put(key: string, state: string) returns (ok: bool)
      requires Valid()
      modifies this
      ensures Valid() && (ok <==> 0 < maxSize)
      ensures items == if ok then Enqueue(old(items), Item(key, state), maxSize) else []
    {
      if |items| >= maxSize {
        if items == [] {
          return false;
        }
        items := items[1..];
      }
      items := items + [Item(key, state)];
      return true;
    }

    method Dequeue() returns (it: Option<Item>)
      requires Valid()
      modifies this
      ensures Valid()
      ensures if old(items) == [] then it == None && items == []
              else it == Some(old(items)[0]) && items == old(items)[1..]
    {
      if items == [] {
        return None;
      }
      it := Some(items[0]);
      items := items[1..];
    }
  }

  class StateSynchronizer {
    const buffer: StateBuffer
    var store: Store

    ghost predicate Valid()
      reads this, buffer
    {
      buffer.Valid() && 0 < buffer.maxSize
    }

    ghost function View(): Sync
      reads this, buffer
    {
      Sync(store, buffer.items)
    }

    constructor (maxSize: nat)
      requires 0 < maxSize
      ensures Valid() && fresh(buffer) && buffer.maxSize == maxSize && View() == Sync(Store(map[], map[]), [])
    {
      buffer := new StateBuffer(maxSize);
      store := Store(map[], map[]);
    }

    method SyncState(key: string, state: string, redis: Redis) returns (ok: bool)
      requires Valid()
      modifies this, buffer
      ensures Valid() && View() == Write(old(View()), Item(key, state), redis, buffer.maxSize)
      ensures ok <==> redis.Up?
    {
      var it := Item(key, state);
      if redis.Unreachable? || redis.FailsAtSet? {
        var put := buffer.Put(key, state);
        return false;
      }
      store := SetLatest(store, it);
      if redis.FailsAtPush? {
        var put := buffer.Put(key, state);
        return false;
      }
      store := Push(store, it);
      if redis.FailsAtTrim? {
        var put := buffer.Put(key, state);
        return false;
      }
      store := Trim(store, key);
      if redis.FailsAtStamp? {
        var put := buffer.Put(key, state);
        return false;
      }
      return true;
    }

    /**
      Drains the buffer.  `turns` counts the items taken from it: as many as were buffered, plus one for every
      attempt that failed and put its item back.
    */
    method ProcessBufferedSyncs(schedule: seq<Redis>) returns (processed: nat, ghost turns: nat)
      requires Valid()
      modifies this, buffer
      ensures Valid() && View() == Drain(old(View()), schedule, buffer.maxSize) && buffer.items == []
      ensures processed == |old(buffer.items)|
      ensures processed <= turns <= |old(buffer.items)| + Failures(schedule)
    {
      processed, turns := 0, 0;
      var rest := schedule;
      while true
        invariant Valid()
        invariant Drain(View(), rest, buffer.maxSize) == Drain(old(View()), schedule, buffer.maxSize)
        invariant processed + |buffer.items| == |old(buffer.items)|
        invariant processed <= turns
        invariant turns + |buffer.items| + Failures(rest) <= |old(buffer.items)| + Failures(schedule)
        decreases |buffer.items| + Failures(rest)
      {
        var it := buffer.Dequeue();
        if it.None? {
          break;
        }
        turns := turns + 1;
        var ok := SyncState(it.value.key, it.value.state, Next(rest));
        rest := Later(rest);
        if ok {
          processed := processed + 1;
        }
      }
    }
  }
}
