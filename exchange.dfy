/**
 * The stream step of an exchange: on each call, one price point per ticker, taken by row index
 * from the per-ticker lists of the data, plus one sample of the performance series.
 *
 * A Java iterator over a list is modelled by the part of the list it has not yet returned:
 * `hasNext` is "non-empty", `next` returns the head and keeps the tail.
 */
module Exchanges {
  import opened Wrappers
  import opened PriceData

  /** Why a step fails: no data was provided, or a ticker of the data has no cursor (data
      replaced after the cursors were created). */
  datatype StreamError = NoData | MissingCursor

  /** The values emitted for `keys`: each ticker's next point, or `None` once exhausted. */
  function Emit(cursors: map<string, seq<PricePoint>>, keys: set<string>): map<string, Option<PricePoint>>
    requires keys <= cursors.Keys
  {
    map k | k in keys :: if cursors[k] == [] then None else Some(cursors[k][0])
  }

  /** The cursors after one step over `keys`: every non-exhausted cursor of `keys` moves past
      its head; every other cursor stays. */
  function Advance(cursors: map<string, seq<PricePoint>>, keys: set<string>): map<string, seq<PricePoint>> {
    map k | k in cursors :: if k in keys && cursors[k] != [] then cursors[k][1..] else cursors[k]
  }

  /** The cursors after `calls` steps over `keys`. */
  function Iterate(cursors: map<string, seq<PricePoint>>, keys: set<string>, calls: nat): map<string, seq<PricePoint>>
  {
    if calls == 0 then cursors else Iterate(Advance(cursors, keys), keys, calls - 1)
  }

  /** The number of points a list still has to give after `calls` steps. */
  function Skip(calls: nat, points: seq<PricePoint>): nat {
    if calls <= |points| then calls else |points|
  }

  /** One fresh cursor per ticker of the data, each positioned at the start of its list. */
  method StartCursors(values: map<string, seq<PricePoint>>) returns (cursors: map<string, seq<PricePoint>>)
    ensures cursors == values
  {
    cursors := map[];
    var pending := values.Keys;
    while pending != {}
      invariant pending <= values.Keys
      invariant cursors == map k | k in values && k !in pending :: values[k]
      decreases pending
    {
      var key :| key in pending;
      cursors := cursors[key := values[key]];
      pending := pending - {key};
    }
  }

  lemma EmitStep(cursors: map<string, seq<PricePoint>>, done: set<string>, key: string)
    requires done <= cursors.Keys && key in cursors && key !in done
    ensures Emit(cursors, done + {key})
      == Emit(cursors, done)[key := if cursors[key] == [] then None else Some(cursors[key][0])]
  {
  }

  lemma AdvanceStep(cursors: map<string, seq<PricePoint>>, done: set<string>, key: string)
    requires key in cursors && key !in done
    ensures Advance(cursors, done)[key] == cursors[key]
    ensures Advance(cursors, done + {key})
      == Advance(cursors, done)[key := if cursors[key] != [] then cursors[key][1..] else cursors[key]]
  {
  }

  /** The main loop of `next`: for every ticker of the data, emit its cursor's next point and
      advance that cursor, or emit `None` when the cursor is exhausted. */
  method Draw(cursors: map<string, seq<PricePoint>>, keys: set<string>)
    returns (points: map<string, Option<PricePoint>>, advanced: map<string, seq<PricePoint>>)
    requires keys <= cursors.Keys
    ensures points == Emit(cursors, keys) && advanced == Advance(cursors, keys)
  {
    points := map[];
    advanced := cursors;
    var pending := keys;
    while pending != {}
      invariant pending <= keys
      invariant points == Emit(cursors, keys - pending)
      invariant advanced == Advance(cursors, keys - pending)
      decreases pending
    {
      var key :| key in pending;
      assert keys - (pending - {key}) == (keys - pending) + {key};
      EmitStep(cursors, keys - pending, key);
      AdvanceStep(cursors, keys - pending, key);
      if advanced[key] != [] {
        points := points[key := Some(advanced[key][0])];
        advanced := advanced[key := advanced[key][1..]];
      } else {
        points := points[key := None];
      }
      pending := pending - {key};
    }
  }

  /** One step loses nothing: a ticker's emitted point followed by its advanced cursor gives back
      the cursor before the step, an exhausted cursor emits `None` and stays, and a cursor of a
      ticker outside `keys` does not move. */
  lemma StepReconstructs(cursors: map<string, seq<PricePoint>>, keys: set<string>)
    requires keys <= cursors.Keys
    ensures Emit(cursors, keys).Keys == keys && Advance(cursors, keys).Keys == cursors.Keys
    ensures forall k | k in keys ::
      match Emit(cursors, keys)[k]
      case Some(p) => cursors[k] == [p] + Advance(cursors, keys)[k]
      case None => cursors[k] == [] && Advance(cursors, keys)[k] == []
    ensures forall k | k in cursors && k !in keys :: Advance(cursors, keys)[k] == cursors[k]
  {
    forall k | k in keys && Emit(cursors, keys)[k].Some?
      ensures cursors[k] == [Emit(cursors, keys)[k].value] + Advance(cursors, keys)[k]
    {
      assert cursors[k] == [cursors[k][0]] + cursors[k][1..];
    }
  }

  /** After `calls` steps from fresh cursors, each ticker's cursor has given exactly its first
      `calls` points (or all of them), and the keys never change. */
  lemma {:induction false} IterateSkips(values: map<string, seq<PricePoint>>, keys: set<string>, calls: nat)
    ensures Iterate(values, keys, calls).Keys == values.Keys
    ensures forall k | k in values && k in keys :: Iterate(values, keys, calls)[k] == values[k][Skip(calls, values[k])..]
    ensures forall k | k in values && k !in keys :: Iterate(values, keys, calls)[k] == values[k]
  {
    if calls > 0 {
      var next := Advance(values, keys);
      IterateSkips(next, keys, calls - 1);
      forall k | k in values && k in keys
        ensures Iterate(values, keys, calls)[k] == values[k][Skip(calls, values[k])..]
      {
        if values[k] != [] {
          assert next[k][Skip(calls - 1, next[k])..] == values[k][1..][Skip(calls - 1, values[k][1..])..];
        }
      }
    }
  }

  /** The call numbered `calls` (from 0) returns, for every ticker of the data, its element at
      that row index, or `None` once its list is exhausted. */
  lemma CallReturnsRow(values: map<string, seq<PricePoint>>, calls: nat)
    ensures Iterate(values, values.Keys, calls).Keys == values.Keys
    ensures Emit(Iterate(values, values.Keys, calls), values.Keys).Keys == values.Keys
    ensures forall k | k in values ::
      Emit(Iterate(values, values.Keys, calls), values.Keys)[k]
        == if calls < |values[k]| then Some(values[k][calls]) else None
  {
    IterateSkips(values, values.Keys, calls);
  }

  /** Stepping once more after `calls` steps is the same as stepping `calls + 1` times: the
      state `next` keeps after each call is the cursors advanced from the back. */
  lemma {:induction false} IterateSnoc(cursors: map<string, seq<PricePoint>>, keys: set<string>, calls: nat)
    ensures Iterate(cursors, keys, calls + 1) == Advance(Iterate(cursors, keys, calls), keys)
    decreases calls
  {
    if calls > 0 {
      IterateSnoc(Advance(cursors, keys), keys, calls - 1);
    }
  }

  /** One call of `next` on the cursors left by `calls` earlier calls over the whole data
      returns row `calls` of every ticker (or `None` once exhausted) and leaves the cursors of
      `calls + 1` calls, so the k-th call of a run returns row k. */
  lemma NextReturnsRow(values: map<string, seq<PricePoint>>, calls: nat)
    ensures values.Keys <= Iterate(values, values.Keys, calls).Keys
    ensures Advance(Iterate(values, values.Keys, calls), values.Keys) == Iterate(values, values.Keys, calls + 1)
    ensures forall k | k in values ::
      Emit(Iterate(values, values.Keys, calls), values.Keys)[k]
        == if calls < |values[k]| then Some(values[k][calls]) else None
  {
    CallReturnsRow(values, calls);
    IterateSnoc(values, values.Keys, calls);
  }

  class Exchange {
    /** The data the exchange streams, or `None` when no data was provided. */
    var data: Option<map<string, seq<PricePoint>>>
    /** Per ticker, the points its iterator has still to give. */
    var dataIterators: map<string, seq<PricePoint>>
    var performanceSeries: seq<real>

    constructor (exchangeData: Option<map<string, seq<PricePoint>>>)
      ensures data == exchangeData && dataIterators == map[] && performanceSeries == []
    {
      data := exchangeData;
      dataIterators := map[];
      performanceSeries := [];
    }

    /** Replace the data; the iterators already created are kept. */
    method SetData(newData: Option<map<string, seq<PricePoint>>>)
      modifies this
      ensures data == newData
      ensures dataIterators == old(dataIterators) && performanceSeries == old(performanceSeries)
    {
      data := newData;
    }

    /**
     * `next`: fails, changing nothing, when there is no data. Creates one iterator per ticker of
     * the data when none exist yet, then returns one value per ticker (its next point, or `None`
     * once exhausted), advances those iterators, and appends the sample
     * `(currentAccountValue - accountValue) / accountValue`.
     */
    method Next(accountValue: real, currentAccountValue: real)
      returns (r: Outcome<map<string, Option<PricePoint>>, StreamError>)
      requires accountValue != 0.0
      modifies this
      ensures data == old(data)
      ensures r == Err(NoData) <==> old(data).None?
      ensures r.Err? ==> dataIterators == old(dataIterators) && performanceSeries == old(performanceSeries)
      ensures old(data).Some? ==>
        var cursors := if old(dataIterators) == map[] then old(data).value else old(dataIterators);
        && (r == Err(MissingCursor) <==> !(old(data).value.Keys <= cursors.Keys))
        && (r.Ok? ==>
              && r.value == Emit(cursors, old(data).value.Keys)
              && dataIterators == Advance(cursors, old(data).value.Keys)
              && performanceSeries
                 == old(performanceSeries) + [(currentAccountValue - accountValue) / accountValue])
    {
      if data.None? {
        return Err(NoData);
      }
      var values := data.value;
      var cursors := dataIterators;
      if cursors == map[] {
        cursors := StartCursors(values);
      }
      if !(values.Keys <= cursors.Keys) {
        return Err(MissingCursor);
      }
      var points, advanced := Draw(cursors, values.Keys);
      dataIterators := advanced;
      performanceSeries := performanceSeries + [(currentAccountValue - accountValue) / accountValue];
      r := Ok(points);
    }
  }
}
