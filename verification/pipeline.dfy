/**
 The hand-off from the event handler to the batching goroutine through the
 `rows` channel (main.go:201, 225, 239-241): every row the handler sends is
 received, in the order sent, as one `RowArrived` signal.
 */
module Pipeline {
  import opened Inventory
  import opened Tags
  import opened Events
  import opened Exporter

  /** The signals the goroutine sees for the rows sent on the channel, in order. */
  function Deliver(rows: seq<Row>): (signals: seq<Signal>)
    ensures |signals| == |rows|
    ensures forall i :: 0 <= i < |rows| ==> signals[i] == RowArrived(rows[i])
  {
    if rows == [] then [] else Deliver(rows[..|rows| - 1]) + [RowArrived(rows[|rows| - 1])]
  }

  /** The channel neither loses, duplicates nor reorders rows: the goroutine receives exactly the rows sent. */
  lemma {:induction false} DeliverArrives(rows: seq<Row>)
    ensures Arrivals(Deliver(rows)) == rows
  {
    if rows != [] {
      var front := rows[..|rows| - 1];
      DeliverArrives(front);
      assert Deliver(rows)[..|rows| - 1] == Deliver(front);
    }
  }

  /** From the start of the goroutine, delivering rows leaves them all in the body and uploads nothing. */
  lemma {:induction false} DeliverFromStart(rows: seq<Row>)
    ensures Run(Deliver(rows)) == ExporterState([Header] + rows, rows != [], [])
  {
    if rows != [] {
      var front := rows[..|rows| - 1];
      DeliverFromStart(front);
      assert Deliver(rows)[..|rows| - 1] == Deliver(front);
      assert [Header] + rows == [Header] + front + [rows[|rows| - 1]];
    }
  }

  /** Rows delivered from the start, then a tick: one payload of the header and those rows, or none if there were no rows. */
  lemma DeliverThenTick(rows: seq<Row>)
    ensures Run(Deliver(rows) + [Tick]) == if rows == [] then Initial else ExporterState([Header], false, [[Header] + rows])
  {
    DeliverFromStart(rows);
    var signals := Deliver(rows) + [Tick];
    assert signals[..|signals| - 1] == Deliver(rows);
    assert Run(signals) == Step(Run(Deliver(rows)), Tick);
  }

  /**
   From the goroutine's start, the rows the handler sends for one batch of
   events, then a tick: when the handler gets through the batch, one payload
   holding the header and exactly those rows in delivery order when there is
   at least one, and no upload at all otherwise.
   */
  lemma BatchThenTick(fields: map<int32, string>, inventory: map<VmRef, VirtualMachine>, events: seq<Event>)
    ensures var rows := EventRows(fields, inventory, events[..PanicIndex(events)]);
            var st := Run(Deliver(rows) + [Tick]);
            PanicIndex(events) == |events| ==>
              st.body == [Header] && !st.written &&
              st.uploads == (if rows == [] then [] else [[Header] + rows])
  {
    DeliverThenTick(EventRows(fields, inventory, events[..PanicIndex(events)]));
  }

  /**
   From the goroutine's start, a batch on which the handler panics: the rows
   sent before the panic are still pending in the body and nothing has been
   uploaded. The panic ends the process, so no tick follows to upload them.
   */
  lemma PanicLeavesRowsPending(fields: map<int32, string>, inventory: map<VmRef, VirtualMachine>, events: seq<Event>)
    requires PanicIndex(events) < |events|
    ensures var rows := EventRows(fields, inventory, events[..PanicIndex(events)]);
            var st := Run(Deliver(rows));
            st.body[1..] == rows && st.written == (rows != []) && st.uploads == []
  {
    var rows := EventRows(fields, inventory, events[..PanicIndex(events)]);
    DeliverFromStart(rows);
    assert ([Header] + rows)[1..] == rows;
  }

  /**
   A custom-field change on machine A, now tagged env=prod and tier=web,
   reaches the next flush as the row `10.0.0.1,Default,A,env=prod;tier=web;`,
   and `written` is clear afterwards; the ignored event beside it adds nothing.
   */
  lemma TagChangeReachesNextFlush()
    ensures var fields: map<int32, string> := map[1 := "env", 2 := "tier"];
            var a := VirtualMachine("A", Some(GuestInfo("10.0.0.1")), [CustomValue(1, "prod"), CustomValue(2, "web")]);
            var events := [Event(CustomFieldValueChanged, Some("vm-a")), Event(Other, Some("vm-a"))];
            var st := Run(Deliver(EventRows(fields, map["vm-a" := a], events)) + [Tick]);
            PanicIndex(events) == |events| && !st.written && st.uploads == [[Header, ["10.0.0.1", "Default", "A", "env=prod;tier=web;"]]]
  {
    var fields: map<int32, string> := map[1 := "env", 2 := "tier"];
    var a := VirtualMachine("A", Some(GuestInfo("10.0.0.1")), [CustomValue(1, "prod"), CustomValue(2, "web")]);
    var events := [Event(CustomFieldValueChanged, Some("vm-a")), Event(Other, Some("vm-a"))];
    var inventory := map["vm-a" := a];
    var row := ["10.0.0.1", "Default", "A", "env=prod;tier=web;"];
    assert EventRows(fields, inventory, events) == [row] by {
      TagStringDependsOnOrder();
      assert TagString(fields, a.customValue) == "env=prod;tier=web;";
      assert Retrieve(inventory, "vm-a") == a;
      assert events[..1] == [events[0]] && [events[0]][..0] == [];
      assert EventRows(fields, inventory, [events[0]]) == [row];
    }
    DeliverThenTick([row]);
    assert [Header] + [row] == [Header, row];
  }
}
