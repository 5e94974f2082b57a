/**
  `GrainliftInfoReader`: the client's own driver rows, then the downstream rows
  without the driver codes. The reader slices each batch into runs of kept rows;
  together the slices are a row filter.
*/
module InfoReader {
  import opened Prelude

  datatype Row = Row(code: nat, value: int)

  /** What the downstream reader yields; `Headless` is a batch without a UInt32 info_name column. */
  datatype Item = Rows(rows: seq<Row>) | Headless | Fault(error: AdbcError)

  datatype Output = Slice(rows: seq<Row>) | Failed(error: AdbcError) | End

  /** What a consumer of the stream observes, row by row. */
  datatype Event = RowOf(row: Row) | ErrorOf(error: AdbcError)

  const MISSING_COLUMN: AdbcError := AdbcError(Unknown, "GetInfo response is missing its UInt32 info_name column")

  function Filter(driver: nat -> bool, rows: seq<Row>): seq<Row> {
    if rows == [] then []
    else
      var n := |rows| - 1;
      Filter(driver, rows[..n]) + (if driver(rows[n].code) then [] else [rows[n]])
  }

  function Events(rows: seq<Row>): (events: seq<Event>)
    ensures |events| == |rows| && forall i | 0 <= i < |rows| :: events[i] == RowOf(rows[i])
  {
    seq(|rows|, i requires 0 <= i < |rows| => RowOf(rows[i]))
  }

  function Joined(slices: seq<seq<Row>>): seq<Row> {
    if slices == [] then [] else slices[0] + Joined(slices[1..])
  }

  lemma {:induction false} JoinedAppend(slices: seq<seq<Row>>, last: seq<Row>)
    ensures Joined(slices + [last]) == Joined(slices) + last
  {
    if slices != [] {
      JoinedAppend(slices[1..], last);
      assert (slices + [last])[1..] == slices[1..] + [last];
    }
  }

  /** The reference: filter every batch, pass errors through, in order. */
  function Kept(driver: nat -> bool, items: seq<Item>): seq<Event> {
    if items == [] then []
    else
      (match items[0]
       case Rows(rows) => Events(Filter(driver, rows))
       case Headless => [ErrorOf(MISSING_COLUMN)]
       case Fault(error) => [ErrorOf(error)]) + Kept(driver, items[1..])
  }

  lemma EventsJoin(a: seq<Row>, b: seq<Row>)
    ensures Events(a + b) == Events(a) + Events(b)
  {
  }

  lemma FilterNext(driver: nat -> bool, rows: seq<Row>, i: nat)
    requires i < |rows|
    ensures Filter(driver, rows[..i + 1]) ==
            Filter(driver, rows[..i]) + (if driver(rows[i].code) then [] else [rows[i]])
  {
    assert rows[..i + 1][..i] == rows[..i];
  }

  /** What is still to come when `pending` slices are queued before the items. */
  function Queued(driver: nat -> bool, pending: seq<seq<Row>>, items: seq<Item>): seq<Event> {
    if pending == [] then Kept(driver, items)
    else Events(pending[0]) + Queued(driver, pending[1..], items)
  }

  lemma {:induction false} QueuedIsJoined(driver: nat -> bool, pending: seq<seq<Row>>, items: seq<Item>)
    ensures Queued(driver, pending, items) == Events(Joined(pending)) + Kept(driver, items)
  {
    if pending != [] {
      QueuedIsJoined(driver, pending[1..], items);
      EventsJoin(pending[0], Joined(pending[1..]));
      Associative(Events(pending[0]), Events(Joined(pending[1..])), Kept(driver, items));
    }
  }

  function Observed(outputs: seq<Output>): seq<Event> {
    if outputs == [] then []
    else Observed(outputs[..|outputs| - 1]) + Seen(outputs[|outputs| - 1])
  }

  function Seen(output: Output): seq<Event> {
    match output
    case Slice(rows) => Events(rows)
    case Failed(error) => [ErrorOf(error)]
    case End => []
  }

  /** The run-slicing loop over one batch. */
  method SliceRuns(driver: nat -> bool, rows: seq<Row>) returns (slices: seq<seq<Row>>)
    ensures Joined(slices) == Filter(driver, rows)
    ensures forall i | 0 <= i < |slices| :: slices[i] != []
  {
    slices := [];
    var runStart: Option<nat> := None;
    ghost var run: seq<Row> := [];
    for index := 0 to |rows|
      invariant runStart.Some? ==> runStart.value < index && run == rows[runStart.value..index]
      invariant runStart.None? ==> run == []
      invariant Joined(slices) + run == Filter(driver, rows[..index])
      invariant forall i | 0 <= i < |slices| :: slices[i] != []
    {
      FilterNext(driver, rows, index);
      if driver(rows[index].code) {
        if runStart.Some? {
          JoinedAppend(slices, rows[runStart.value..index]);
          slices := slices + [rows[runStart.value..index]];
          runStart := None;
          run := [];
        }
      } else {
        if runStart.None? {
          runStart := Some(index);
        }
        Associative(Joined(slices), run, [rows[index]]);
        run := run + [rows[index]];
      }
    }
    assert rows[..|rows|] == rows;
    if runStart.Some? {
      JoinedAppend(slices, rows[runStart.value..]);
      slices := slices + [rows[runStart.value..]];
    }
  }

  function ItemError(item: Item): AdbcError
    requires !item.Rows?
  {
    if item.Headless? then MISSING_COLUMN else item.error
  }

  /** Taking one item off the downstream reader and queueing its slices loses and adds nothing. */
  lemma TakeItem(driver: nat -> bool, items: seq<Item>, i: nat, slices: seq<seq<Row>>)
    requires i < |items|
    requires items[i].Rows? ==> Joined(slices) == Filter(driver, items[i].rows)
    ensures items[i].Rows? ==> Queued(driver, slices, items[i + 1..]) == Kept(driver, items[i..])
    ensures !items[i].Rows? ==> [ErrorOf(ItemError(items[i]))] + Kept(driver, items[i + 1..]) == Kept(driver, items[i..])
  {
    assert items[i..][1..] == items[i + 1..];
    QueuedIsJoined(driver, slices, items[i + 1..]);
  }

  class GrainliftInfoReader {
    const driver: nat -> bool
    const downstream: seq<Item>
    var grainliftBatch: Option<seq<Row>>
    var position: nat
    var pending: seq<seq<Row>>

    ghost predicate Valid()
      reads this
    {
      && position <= |downstream|
      && forall i | 0 <= i < |pending| :: pending[i] != []
    }

    /** Everything still to be observed. */
    ghost function Remaining(): seq<Event>
      requires Valid()
      reads this
    {
      var rest := Queued(driver, pending, downstream[position..]);
      if grainliftBatch.Some? then Events(grainliftBatch.value) + rest else rest
    }

    constructor (driver: nat -> bool, own: Option<seq<Row>>, downstream: seq<Item>)
      ensures Valid() && this.driver == driver && this.downstream == downstream
      ensures grainliftBatch == own && position == 0 && pending == []
    {
      this.driver := driver;
      this.downstream := downstream;
      grainliftBatch := own;
      position := 0;
      pending := [];
    }

    /** `Iterator::next`. */
    method Next() returns (output: Output)
      requires Valid()
      modifies this
      ensures Valid()
      ensures Seen(output) + Remaining() == old(Remaining())
      ensures output.End? ==> Remaining() == []
      ensures output.Slice? && old(grainliftBatch).None? ==> output.rows != []
      ensures old(grainliftBatch).Some? ==> output == Slice(old(grainliftBatch).value)
      ensures grainliftBatch.None?
      ensures old(position) <= position
      ensures !output.End? && position == old(position) ==>
                |pending| < |old(pending)| || (|pending| == |old(pending)| && old(grainliftBatch).Some?)
    {
      if grainliftBatch.Some? {
        var batch := grainliftBatch.value;
        grainliftBatch := None;
        return Slice(batch);
      }
      if pending != [] {
        output := Slice(pending[0]);
        pending := pending[1..];
        return;
      }
      output := NextFromDownstream();
    }

    /** The loop over downstream batches, until one leaves a slice, fails, or there is none. */
    method NextFromDownstream() returns (output: Output)
      requires Valid() && grainliftBatch.None? && pending == []
      modifies this`position, this`pending
      ensures Valid()
      ensures Seen(output) + Remaining() == old(Remaining())
      ensures output.End? ==> Remaining() == []
      ensures output.Slice? ==> output.rows != []
      ensures old(position) <= position && (!output.End? ==> old(position) < position)
    {
      ghost var want := Remaining();
      while position < |downstream|
        invariant Valid() && grainliftBatch.None? && pending == [] && old(position) <= position
        invariant Kept(driver, downstream[position..]) == want
        decreases |downstream| - position
      {
        var item := downstream[position];
        if !item.Rows? {
          TakeItem(driver, downstream, position, []);
          position := position + 1;
          assert want == Seen(Failed(ItemError(item))) + Kept(driver, downstream[position..]);
          return Failed(ItemError(item));
        }
        var slices := SliceRuns(driver, item.rows);
        TakeItem(driver, downstream, position, slices);
        position := position + 1;
        if slices != [] {
          assert want == Events(slices[0]) + Queued(driver, slices[1..], downstream[position..]);
          pending := slices[1..];
          return Slice(slices[0]);
        }
      }
      assert downstream[position..] == [] && want == [];
      output := End;
    }
  }

  lemma ObservedNext(outputs: seq<Output>, output: Output, rest: seq<Event>)
    ensures Observed(outputs + [output]) + rest == Observed(outputs) + (Seen(output) + rest)
  {
    assert (outputs + [output])[..|outputs|] == outputs;
  }

  /** A whole traversal: own rows, then the filtered downstream rows, errors in place, no empty slice. */
  method ReadAll(driver: nat -> bool, own: Option<seq<Row>>, downstream: seq<Item>) returns (outputs: seq<Output>)
    ensures Observed(outputs) == (if own.Some? then Events(own.value) else []) + Kept(driver, downstream)
    ensures own.Some? ==> outputs != [] && outputs[0] == Slice(own.value)
    ensures forall i | (if own.Some? then 1 else 0) <= i < |outputs| :: outputs[i].Slice? ==> outputs[i].rows != []
  {
    var reader := new GrainliftInfoReader(driver, own, downstream);
    assert downstream[0..] == downstream;
    ghost var all := reader.Remaining();
    ghost var rest := all;
    outputs := [];
    while true
      invariant reader.Valid() && fresh(reader)
      invariant rest == reader.Remaining() && Observed(outputs) + rest == all
      invariant outputs == [] ==> reader.grainliftBatch == own
      invariant outputs != [] ==> reader.grainliftBatch.None?
      invariant own.Some? && outputs != [] ==> outputs[0] == Slice(own.value)
      invariant forall i | (if own.Some? then 1 else 0) <= i < |outputs| :: outputs[i].Slice? ==> outputs[i].rows != []
      decreases |downstream| - reader.position, |reader.pending|, reader.grainliftBatch.Some?
    {
      var output := reader.Next();
      if output.End? {
        assert rest == [] + reader.Remaining();
        break;
      }
      rest := reader.Remaining();
      ObservedNext(outputs, output, rest);
      outputs := outputs + [output];
    }
    assert rest == [] && Observed(outputs) + rest == Observed(outputs);
  }
}
