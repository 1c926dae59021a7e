/**
 The batching goroutine (main.go:233-254). It owns a CSV body that starts as
 the header row and a `written` flag. A row received from the channel is
 appended and sets the flag. A timer tick with the flag clear does nothing;
 with the flag set it uploads the body, resets it to the header and clears
 the flag. The upload's response is only printed, so the reset happens
 whether or not the upload succeeded.

 The `select` handles one case at a time, so the goroutine is a sequence of
 signals: a row arriving, or a tick. `Run` is the state after a sequence of
 signals; `BatchExporter` is the goroutine's state updated in place, and its
 `Valid` ties it to `Run` of the signals it has handled.
 */
module Exporter {
  import opened Inventory

  /** One case of the goroutine's `select`. */
  datatype Signal = RowArrived(row: Row) | Tick

  /** The goroutine's state: the body as rows, the `written` flag, and every payload uploaded so far. */
  datatype ExporterState = ExporterState(body: seq<Row>, written: bool, uploads: seq<seq<Row>>)

  /** After `body.Reset()` and the header write at the start of the goroutine. */
  const Initial: ExporterState := ExporterState([Header], false, [])

  /** One iteration of the goroutine's loop. */
  function Step(st: ExporterState, s: Signal): ExporterState {
    match s
    case RowArrived(row) => st.(body := st.body + [row], written := true)
    case Tick => if st.written then ExporterState([Header], false, st.uploads + [st.body]) else st
  }

  /** The state after handling `signals` in order. */
  function Run(signals: seq<Signal>): ExporterState {
    if signals == [] then Initial else Step(Run(signals[..|signals| - 1]), signals[|signals| - 1])
  }

  /** The rows that arrived, in arrival order. */
  function Arrivals(signals: seq<Signal>): seq<Row> {
    if signals == [] then []
    else
      var last := signals[|signals| - 1];
      Arrivals(signals[..|signals| - 1]) + (if last.RowArrived? then [last.row] else [])
  }

  /** The data rows of one payload: everything after its header. */
  function DataRows(payload: seq<Row>): seq<Row> {
    if payload == [] then [] else payload[1..]
  }

  /** The data rows of all payloads, in upload order. */
  function Delivered(uploads: seq<seq<Row>>): seq<Row> {
    if uploads == [] then [] else Delivered(uploads[..|uploads| - 1]) + DataRows(uploads[|uploads| - 1])
  }

  /**
   The body starts with the header, `written` says whether it holds a data
   row, and every uploaded payload is the header followed by at least one
   data row.
   */
  ghost predicate Consistent(st: ExporterState) {
    && |st.body| >= 1 && st.body[0] == Header
    && (st.written <==> |st.body| > 1)
    && forall i :: 0 <= i < |st.uploads| ==> |st.uploads[i]| >= 2 && st.uploads[i][0] == Header
  }

  /**
   No row is lost or duplicated: the data rows of the uploaded payloads,
   followed by the rows still in the body, are exactly the rows that
   arrived, in arrival order. So each row is in at most one payload.
   */
  lemma {:induction false} RunAccountsForEveryRow(signals: seq<Signal>)
    ensures Consistent(Run(signals))
    ensures Delivered(Run(signals).uploads) + Run(signals).body[1..] == Arrivals(signals)
  {
    if signals != [] {
      var front, last := signals[..|signals| - 1], signals[|signals| - 1];
      RunAccountsForEveryRow(front);
      var st := Run(front);
      match last
      case RowArrived(row) =>
        assert (st.body + [row])[1..] == st.body[1..] + [row];
      case Tick =>
        if st.written {
          assert (st.uploads + [st.body])[..|st.uploads|] == st.uploads;
          assert [Header][1..] == [];
        }
    }
  }

  /** A tick while `written` is false uploads nothing and changes nothing. */
  lemma IdleTickChangesNothing(signals: seq<Signal>)
    requires !Run(signals).written
    ensures Run(signals + [Tick]) == Run(signals)
  {
    assert (signals + [Tick])[..|signals|] == signals;
  }

  /**
   A tick while `written` is true uploads the header followed by exactly the
   rows that arrived since the previous upload, in arrival order, and
   returns to the initial body with `written` cleared.
   */
  lemma FlushUploadsPendingRows(signals: seq<Signal>)
    requires Run(signals).written
    ensures var st := Run(signals);
            var sent := |Delivered(st.uploads)|;
            sent <= |Arrivals(signals)| &&
            Run(signals + [Tick]) == ExporterState([Header], false, st.uploads + [[Header] + Arrivals(signals)[sent..]])
  {
    RunAccountsForEveryRow(signals);
    assert (signals + [Tick])[..|signals|] == signals;
    var st := Run(signals);
    assert st.body == [Header] + st.body[1..];
  }

  /**
   Payloads, once uploaded, never change and are never added to: whatever
   arrives later goes only into later payloads.
   */
  lemma {:induction false} UploadsOnlyGrow(earlier: seq<Signal>, later: seq<Signal>)
    ensures |Run(earlier).uploads| <= |Run(earlier + later).uploads|
    ensures Run(earlier + later).uploads[..|Run(earlier).uploads|] == Run(earlier).uploads
    decreases |later|
  {
    if later == [] {
      assert earlier + later == earlier;
    } else {
      var front := later[..|later| - 1];
      assert (earlier + later)[..|earlier + later| - 1] == earlier + front;
      assert (earlier + later)[|earlier + later| - 1] == later[|later| - 1];
      UploadsOnlyGrow(earlier, front);
      var st := Run(earlier + front);
      var k := |Run(earlier).uploads|;
      if later[|later| - 1].Tick? && st.written {
        assert (st.uploads + [st.body])[..k] == st.uploads[..k];
      }
    }
  }

  /** The batching goroutine: its body and flag, and a ghost log of the payloads it has uploaded. */
  class BatchExporter {
    var body: seq<Row>
    var written: bool
    ghost var uploads: seq<seq<Row>>
    ghost var signals: seq<Signal>

    ghost predicate Valid()
      reads this
    {
      ExporterState(body, written, uploads) == Run(signals)
    }

    /** The start of the goroutine: the body is reset to the header row and nothing is written. */
    constructor ()
      ensures Valid() && signals == []
      ensures body == [Header] && !written && uploads == []
    {
      body := [Header];
      written := false;
      uploads := [];
      signals := [];
    }

    /** `case row := <-rows`: the row is appended to the body and `written` is set. */
    method OnRow(row: Row)
      requires Valid()
      modifies this
      ensures Valid() && signals == old(signals) + [RowArrived(row)]
      ensures body == old(body) + [row] && written && uploads == old(uploads)
    {
      signals := signals + [RowArrived(row)];
      assert signals[..|signals| - 1] == old(signals);
      body := body + [row];
      written := true;
    }

    /**
     `case <-time.After(EXPORT_INTERVAL)`: with `written` set, the body is
     uploaded (recorded in the log), reset to the header and `written` is
     cleared; otherwise nothing happens.
     */
    method OnTick()
      requires Valid()
      modifies this
      ensures Valid() && signals == old(signals) + [Tick]
      ensures old(written) ==> body == [Header] && !written && uploads == old(uploads) + [old(body)]
      ensures !old(written) ==> body == old(body) && !written && uploads == old(uploads)
    {
      signals := signals + [Tick];
      assert signals[..|signals| - 1] == old(signals);
      if written {
        uploads := uploads + [body];
        body := [Header];
        written := false;
      }
    }
  }
}
