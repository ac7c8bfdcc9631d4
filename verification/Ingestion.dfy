/**
  The candle batcher (backend/market_data/ingestion.py).  Candles wait in one buffer a key, the text
  "symbol:timeframe", and leave it in batches; `written` stands for the time-series database they go to.
*/
module Ingestion {
  import opened Options

  /** A field of a raw bar: a time stamp, or anything else. */
  datatype Field = Stamp(time: int) | Value(number: real)

  datatype Candle = Candle(timestamp: int, open: Field, high: Field, low: Field, close: Field, volume: Field)

  datatype Batch = Batch(symbol: string, timeframe: string, candles: seq<Candle>)

  /** A candle as it was handed in. */
  datatype Arrival = Arrival(symbol: string, timeframe: string, candle: Candle)

  const LIMIT := 100
  const CHUNK := 500

  function Key(symbol: string, timeframe: string): string {
    symbol + ":" + timeframe
  }

  function FirstColon(s: string): (i: nat)
    ensures i <= |s| && ':' !in s[..i] && (i < |s| ==> s[i] == ':')
    ensures i == |s| <==> ':' !in s
  {
    if s == [] then 0
    else if s[0] == ':' then 0
    else
      var i := FirstColon(s[1..]);
      assert s[..i + 1] == [s[0]] + s[1..][..i] && s == [s[0]] + s[1..];
      i + 1
  }

  /** Python's key.split(":", 1), of a key that has a colon. */
  function Split(key: string): (r: (string, string))
    requires ':' in key
    ensures Key(r.0, r.1) == key && ':' !in r.0
  {
    var i := FirstColon(key);
    (key[..i], key[i + 1..])
  }

  /** Splitting a key gives back what it was made of exactly when the symbol has no colon. */
  lemma SplitInvertsKey(symbol: string, timeframe: string)
    ensures ':' in Key(symbol, timeframe)
    ensures Split(Key(symbol, timeframe)) == (symbol, timeframe) <==> ':' !in symbol
  {
    var key := Key(symbol, timeframe);
    assert key[|symbol|] == ':';
    if ':' !in symbol {
      var i := FirstColon(key);
      assert forall k :: 0 <= k < |symbol| ==> key[k] == symbol[k];
      assert forall k :: 0 <= k < i ==> key[..i][k] == key[k] && key[k] != ':';
      assert key[..|symbol|] == symbol && key[|symbol| + 1..] == timeframe;
    }
  }

  /** A symbol with a colon shares its key with another symbol. */
  lemma ColonsCollide(a: string, b: string, c: string)
    ensures Key(a + ":" + b, c) == Key(a, b + ":" + c)
  {
  }

  // ---------- what has been delivered ----------

  function DeliveredTo(written: seq<Batch>, key: string): seq<Candle> {
    if written == [] then []
    else
      var b := written[|written| - 1];
      DeliveredTo(written[..|written| - 1], key) + if Key(b.symbol, b.timeframe) == key then b.candles else []
  }

  function ArrivedFor(arrivals: seq<Arrival>, key: string): seq<Candle> {
    if arrivals == [] then []
    else
      var a := arrivals[|arrivals| - 1];
      ArrivedFor(arrivals[..|arrivals| - 1], key) + if Key(a.symbol, a.timeframe) == key then [a.candle] else []
  }

  /** The candles of the batches written under exactly this symbol and timeframe. */
  function Delivered(written: seq<Batch>, symbol: string, timeframe: string): seq<Candle> {
    if written == [] then []
    else
      var b := written[|written| - 1];
      Delivered(written[..|written| - 1], symbol, timeframe)
      + if b.symbol == symbol && b.timeframe == timeframe then b.candles else []
  }

  function Arrived(arrivals: seq<Arrival>, symbol: string, timeframe: string): seq<Candle> {
    if arrivals == [] then []
    else
      var a := arrivals[|arrivals| - 1];
      Arrived(arrivals[..|arrivals| - 1], symbol, timeframe)
      + if a.symbol == symbol && a.timeframe == timeframe then [a.candle] else []
  }

  function Waiting(buffer: map<string, seq<Candle>>, key: string): seq<Candle> {
    if key in buffer then buffer[key] else []
  }

  /** Every key's batches, followed by what waits for it, are the candles that arrived for it, in order, once each. */
  ghost predicate Conserved(written: seq<Batch>, buffer: map<string, seq<Candle>>, arrivals: seq<Arrival>) {
    forall key :: DeliveredTo(written, key) + Waiting(buffer, key) == ArrivedFor(arrivals, key)
  }

  predicate ColonFree(written: seq<Batch>, arrivals: seq<Arrival>) {
    && (forall i :: 0 <= i < |written| ==> ':' !in written[i].symbol)
    && (forall i :: 0 <= i < |arrivals| ==> ':' !in arrivals[i].symbol)
  }

  lemma {:induction false} DeliveredByName(written: seq<Batch>, symbol: string, timeframe: string)
    requires ':' !in symbol && ColonFree(written, [])
    ensures Delivered(written, symbol, timeframe) == DeliveredTo(written, Key(symbol, timeframe))
  {
    if written != [] {
      var b := written[|written| - 1];
      DeliveredByName(written[..|written| - 1], symbol, timeframe);
      SplitInvertsKey(symbol, timeframe);
      SplitInvertsKey(b.symbol, b.timeframe);
    }
  }

  lemma {:induction false} ArrivedByName(arrivals: seq<Arrival>, symbol: string, timeframe: string)
    requires ':' !in symbol && ColonFree([], arrivals)
    ensures Arrived(arrivals, symbol, timeframe) == ArrivedFor(arrivals, Key(symbol, timeframe))
  {
    if arrivals != [] {
      var a := arrivals[|arrivals| - 1];
      ArrivedByName(arrivals[..|arrivals| - 1], symbol, timeframe);
      SplitInvertsKey(symbol, timeframe);
      SplitInvertsKey(a.symbol, a.timeframe);
    }
  }

  /** For colon-free symbols delivery is exactly once and in order by symbol and timeframe, not only by key. */
  lemma ExactlyOnce(written: seq<Batch>, buffer: map<string, seq<Candle>>, arrivals: seq<Arrival>,
                    symbol: string, timeframe: string)
    requires Conserved(written, buffer, arrivals) && ColonFree(written, arrivals) && ':' !in symbol
    ensures Delivered(written, symbol, timeframe) + Waiting(buffer, Key(symbol, timeframe))
         == Arrived(arrivals, symbol, timeframe)
  {
    DeliveredByName(written, symbol, timeframe);
    ArrivedByName(arrivals, symbol, timeframe);
  }

  lemma WriteMoves(written: seq<Batch>, buffer: map<string, seq<Candle>>, arrivals: seq<Arrival>,
                   symbol: string, timeframe: string)
    requires Conserved(written, buffer, arrivals)
    ensures var key := Key(symbol, timeframe);
            Conserved(written + [Batch(symbol, timeframe, Waiting(buffer, key))], buffer - {key}, arrivals)
  {
    var b := Batch(symbol, timeframe, Waiting(buffer, Key(symbol, timeframe)));
    assert (written + [b])[..|written|] == written;
  }

  lemma DropEmpty(written: seq<Batch>, buffer: map<string, seq<Candle>>, arrivals: seq<Arrival>, key: string)
    requires Conserved(written, buffer, arrivals) && Waiting(buffer, key) == []
    ensures Conserved(written, buffer - {key}, arrivals)
  {
    assert forall k :: Waiting(buffer - {key}, k) == Waiting(buffer, k);
  }

  lemma ArrivalWaits(written: seq<Batch>, buffer: map<string, seq<Candle>>, arrivals: seq<Arrival>, a: Arrival)
    requires Conserved(written, buffer, arrivals)
    ensures var key := Key(a.symbol, a.timeframe);
            Conserved(written, buffer[key := Waiting(buffer, key) + [a.candle]], arrivals + [a])
  {
    assert (arrivals + [a])[..|arrivals|] == arrivals;
    var key, buffer' := Key(a.symbol, a.timeframe), buffer[Key(a.symbol, a.timeframe) :=
      Waiting(buffer, Key(a.symbol, a.timeframe)) + [a.candle]];
    forall k
      ensures DeliveredTo(written, k) + Waiting(buffer', k) == ArrivedFor(arrivals + [a], k)
    {
      assert DeliveredTo(written, k) + Waiting(buffer, k) == ArrivedFor(arrivals, k);
    }
  }

  // ---------- conversion and chunking ----------

  /** The candles made of the bars that have at least six fields; a bar without a time stamp gets the clock's. */
  function Convert(symbol: string, timeframe: string, data: seq<seq<Field>>, clock: nat -> int): seq<Arrival> {
    if data == [] then []
    else
      var n := |data| - 1;
      Convert(symbol, timeframe, data[..n], clock)
      + if |data[n]| >= 6 then [Arrival(symbol, timeframe, ToCandle(data[n], clock(n)))] else []
  }

  function ToCandle(bar: seq<Field>, now: int): Candle
    requires |bar| >= 6
  {
    Candle(if bar[0].Stamp? then bar[0].time else now, bar[1], bar[2], bar[3], bar[4], bar[5])
  }

  /** One more bar: the six fields are time, open, high, low, close and volume, and shorter bars are skipped. */
  lemma ConvertTells(symbol: string, timeframe: string, data: seq<seq<Field>>, bar: seq<Field>, clock: nat -> int)
    ensures var before, after := Convert(symbol, timeframe, data, clock),
                                 Convert(symbol, timeframe, data + [bar], clock);
            if |bar| < 6 then after == before
            else
              && |after| == |before| + 1 && after[..|before|] == before
              && var a := after[|before|];
                 && a.symbol == symbol && a.timeframe == timeframe
                 && a.candle.timestamp == (match bar[0] case Stamp(time) => time case Value(_) => clock(|data|))
                 && a.candle.open == bar[1] && a.candle.high == bar[2] && a.candle.low == bar[3]
                 && a.candle.close == bar[4] && a.candle.volume == bar[5]
  {
    assert (data + [bar])[..|data|] == data;
  }

  function Contents(batches: seq<Batch>): seq<Candle> {
    if batches == [] then [] else Contents(batches[..|batches| - 1]) + batches[|batches| - 1].candles
  }

  // ---------- the object ----------

  class MarketDataIngestion {
    var buffer: map<string, seq<Candle>>
    var written: seq<Batch>
    ghost var arrivals: seq<Arrival>

    ghost predicate Valid()
      reads this
    {
      && Conserved(written, buffer, arrivals)
      && (forall key :: key in buffer ==> ':' in key && 0 < |buffer[key]| < LIMIT)
      && (forall i :: 0 <= i < |written| ==> 0 < |written[i].candles| <= LIMIT)
    }

    constructor ()
      ensures Valid() && buffer == map[] && written == [] && arrivals == []
    {
      buffer, written, arrivals := map[], [], [];
    }

    method FlushKey(symbol: string, timeframe: string)
      requires Conserved(written, buffer, arrivals)
      modifies `buffer, `written
      ensures Conserved(written, buffer, arrivals)
      ensures var key := Key(symbol, timeframe);
              && buffer == old(buffer) - {key}
              && written == old(written) + (var waiting := Waiting(old(buffer), key);
                                            if waiting == [] then [] else [Batch(symbol, timeframe, waiting)])
    {
      var key := Key(symbol, timeframe);
      var candles := Waiting(buffer, key);
      WriteMoves(written, buffer, arrivals, symbol, timeframe);
      if candles == [] {
        DropEmpty(written, buffer, arrivals, key);
      }
      buffer := buffer - {key};
      if candles != [] {
        written := written + [Batch(symbol, timeframe, candles)];
      }
    }

    method FlushAll()
      requires Conserved(written, buffer, arrivals)
      requires forall key :: key in buffer ==> ':' in key && 0 < |buffer[key]| <= LIMIT
      requires forall i :: 0 <= i < |written| ==> 0 < |written[i].candles| <= LIMIT
      modifies `buffer, `written
      ensures Valid() && buffer == map[]
      ensures old(written) <= written
      ensures forall i :: |old(written)| <= i < |written| ==> ':' !in written[i].symbol
    {
      while buffer != map[]
        invariant Conserved(written, buffer, arrivals)
        invariant forall key :: key in buffer ==> ':' in key && 0 < |buffer[key]| <= LIMIT
        invariant forall i :: 0 <= i < |written| ==> 0 < |written[i].candles| <= LIMIT
        invariant old(written) <= written
        invariant forall i :: |old(written)| <= i < |written| ==> ':' !in written[i].symbol
        decreases |buffer|
      {
        var key :| key in buffer;
        var (symbol, timeframe) := Split(key);
        FlushKey(symbol, timeframe);
      }
    }

    /** Without both a symbol and a timeframe, everything is flushed. */
    method Flush(symbol: Option<string>, timeframe: Option<string>)
      requires Conserved(written, buffer, arrivals)
      requires forall key :: key in buffer ==> ':' in key && 0 < |buffer[key]| <= LIMIT
      requires forall key :: key in buffer && |buffer[key]| == LIMIT ==>
                 symbol.Some? && timeframe.Some? && key == Key(symbol.value, timeframe.value)
      requires forall i :: 0 <= i < |written| ==> 0 < |written[i].candles| <= LIMIT
      modifies `buffer, `written
      ensures Valid() && old(written) <= written
      ensures if Given(symbol) && Given(timeframe) then buffer == old(buffer) - {Key(symbol.value, timeframe.value)}
              else buffer == map[]
      ensures Given(symbol) && Given(timeframe) ==>
        var waiting := Waiting(old(buffer), Key(symbol.value, timeframe.value));
        written == old(written) + if waiting == [] then [] else [Batch(symbol.value, timeframe.value, waiting)]
      ensures forall i :: |old(written)| <= i < |written| ==>
                ':' !in written[i].symbol || symbol == Some(written[i].symbol)
    {
      hide Conserved, Key;
      if Given(symbol) && Given(timeframe) {
        FlushKey(symbol.value, timeframe.value);
      } else {
        FlushAll();
      }
    }

    method IngestCandle(symbol: string, timeframe: string, candle: Candle)
      requires Valid()
      modifies this
      ensures Valid() && arrivals == old(arrivals) + [Arrival(symbol, timeframe, candle)]
      ensures old(written) <= written
      ensures var key := Key(symbol, timeframe);
              var waiting := Waiting(old(buffer), key) + [candle];
              if |waiting| < 100 then written == old(written) && buffer == old(buffer)[key := waiting]
              else if symbol == "" || timeframe == "" then buffer == map[]
              else written == old(written) + [Batch(symbol, timeframe, waiting)] && buffer == old(buffer) - {key}
      ensures ':' !in symbol && ColonFree(old(written), old(arrivals)) ==> ColonFree(written, arrivals)
    {
      hide Conserved, Key;
      var key := Key(symbol, timeframe);
      SplitInvertsKey(symbol, timeframe);
      ArrivalWaits(written, buffer, arrivals, Arrival(symbol, timeframe, candle));
      buffer := buffer[key := Waiting(buffer, key) + [candle]];
      arrivals := arrivals + [Arrival(symbol, timeframe, candle)];
      if |buffer[key]| >= LIMIT {
        Flush(Some(symbol), Some(timeframe));
      }
    }

    /** Ingests a list of raw bars. */
    method IngestBars(symbol: string, timeframe: string, data: seq<seq<Field>>, clock: nat -> int)
      requires Valid()
      modifies this
      ensures Valid() && arrivals == old(arrivals) + Convert(symbol, timeframe, data, clock)
      ensures ':' !in symbol && ColonFree(old(written), old(arrivals)) ==> ColonFree(written, arrivals)
    {
      hide Key, Conserved, Waiting, ColonFree;
      for i := 0 to |data|
        invariant Valid() && arrivals == old(arrivals) + Convert(symbol, timeframe, data[..i], clock)
        invariant ':' !in symbol && ColonFree(old(written), old(arrivals)) ==> ColonFree(written, arrivals)
      {
        assert data[..i + 1][..i] == data[..i];
        if |data[i]| >= 6 {
          IngestCandle(symbol, timeframe, ToCandle(data[i], clock(i)));
        }
      }
      assert data[..|data|] == data;
    }

    /** Ingests a list of raw bars and leaves nothing of it waiting. */
    method IngestOhlcv(symbol: string, timeframe: string, data: seq<seq<Field>>, clock: nat -> int)
      requires Valid()
      modifies this
      ensures Valid() && arrivals == old(arrivals) + Convert(symbol, timeframe, data, clock)
      ensures Key(symbol, timeframe) !in buffer
      ensures DeliveredTo(written, Key(symbol, timeframe)) == ArrivedFor(arrivals, Key(symbol, timeframe))
      ensures ':' !in symbol && ColonFree(old(written), old(arrivals)) ==> ColonFree(written, arrivals)
    {
      hide Key, Convert;
      IngestBars(symbol, timeframe, data, clock);
      Flush(Some(symbol), Some(timeframe));
    }
  }

  /** Writes a history in batches: in order, complete, every batch full but possibly the last. */
  method SyncHistorical(symbol: string, timeframe: string, candles: seq<Candle>) returns (batches: seq<Batch>)
    ensures Contents(batches) == candles
    ensures forall i :: 0 <= i < |batches| ==> batches[i].symbol == symbol && batches[i].timeframe == timeframe
    ensures forall i :: 0 <= i < |batches| - 1 ==> |batches[i].candles| == 500
    ensures batches != [] ==> 0 < |batches[|batches| - 1].candles| <= 500
  {
    batches := [];
    var i := 0;
    while i < |candles|
      invariant Contents(batches) == candles[..if i < |candles| then i else |candles|]
      invariant forall k :: 0 <= k < |batches| ==> batches[k].symbol == symbol && batches[k].timeframe == timeframe
      invariant forall k :: 0 <= k < |batches| - 1 ==> |batches[k].candles| == CHUNK
      invariant batches != [] ==> 0 < |batches[|batches| - 1].candles| <= CHUNK
      invariant i < |candles| && batches != [] ==> |batches[|batches| - 1].candles| == CHUNK
    {
      var end := if i + CHUNK < |candles| then i + CHUNK else |candles|;
      ghost var before := batches;
      batches := batches + [Batch(symbol, timeframe, candles[i..end])];
      assert batches[..|batches| - 1] == before;
      assert candles[..i] + candles[i..end] == candles[..end];
      i := i + CHUNK;
    }
    assert candles[..|candles|] == candles;
  }
}
