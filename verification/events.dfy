/**
 The event handler passed to the event manager (main.go:202-231). Each
 delivered batch of events is walked in delivery order; a custom-field-value
 change or a rename causes the affected machine to be retrieved again and,
 when it has guest info, its row is sent to the batch exporter. Every other
 event kind is ignored. An event of one of those two kinds that names no
 virtual machine (a custom-field change on a host or a datastore, say) makes
 `event.GetEvent().Vm.Vm` a nil dereference: the handler panics there, and
 the rest of the batch is never handled.
 */
module Events {
  import opened Inventory
  import opened Tags
  import opened RowBuilder

  /** The event kinds the handler tells apart; every other vCenter event is `Other`. */
  datatype EventKind = CustomFieldValueChanged | VmRenamed | Other

  /** The managed-object reference of a virtual machine. */
  type VmRef = string

  /** An event and the virtual machine it names, if any (`Vm` is a nil pointer for an event on another entity). */
  datatype Event = Event(kind: EventKind, vm: Option<VmRef>)

  /** The type switch of the handler: only these two kinds lead to a row. */
  predicate Eligible(e: Event) {
    e.kind == CustomFieldValueChanged || e.kind == VmRenamed
  }

  /** The handler panics on `e`: its kind passes the type switch, but it names no virtual machine. */
  predicate Panics(e: Event) {
    Eligible(e) && e.vm.None?
  }

  /** The position of the first event the handler panics on, or |events| when there is none. */
  function PanicIndex(events: seq<Event>): (k: nat)
    ensures k <= |events|
    ensures forall i :: 0 <= i < k ==> !Panics(events[i])
    ensures k < |events| ==> Panics(events[k])
  {
    if events == [] then 0
    else if Panics(events[0]) then 0
    else 1 + PanicIndex(events[1..])
  }

  /** A panic ends the batch: whatever follows the first panicking event is never handled. */
  lemma PanicEndsTheBatch(before: seq<Event>, e: Event, after: seq<Event>)
    requires forall i :: 0 <= i < |before| ==> !Panics(before[i])
    requires Panics(e)
    ensures PanicIndex(before + [e] + after) == |before|
  {
    var all := before + [e] + after;
    assert all[|before|] == e;
    forall i | 0 <= i < |before| ensures all[i] == before[i] { }
  }

  /**
   `pc.RetrieveOne` on the current inventory. Its error is ignored by the
   handler, so a reference that cannot be retrieved leaves the Go zero value,
   which has no guest info.
   */
  function Retrieve(inventory: map<VmRef, VirtualMachine>, ref: VmRef): VirtualMachine {
    if ref in inventory then inventory[ref] else ZeroVirtualMachine
  }

  /**
   The rows the handler sends for `events`, in delivery order, when it
   handles all of them; an event it would panic on adds nothing here, and
   `HandleEvent` applies this only to the events before the first panic.
   */
  function EventRows(fields: map<int32, string>, inventory: map<VmRef, VirtualMachine>, events: seq<Event>): seq<Row> {
    if events == [] then []
    else
      var last := events[|events| - 1];
      EventRows(fields, inventory, events[..|events| - 1]) +
      (if Eligible(last) && last.vm.Some? then RowsOf(fields, Retrieve(inventory, last.vm.value)) else [])
  }

  /** The machines retrieved for the eligible events that name one, in delivery order. */
  function EligibleMachines(inventory: map<VmRef, VirtualMachine>, events: seq<Event>): (vms: seq<VirtualMachine>)
    ensures |vms| <= |events|
    ensures forall m :: m in vms ==>
              exists i :: 0 <= i < |events| && Eligible(events[i]) && events[i].vm.Some? && m == Retrieve(inventory, events[i].vm.value)
  {
    if events == [] then []
    else
      var last := events[|events| - 1];
      EligibleMachines(inventory, events[..|events| - 1]) +
      (if Eligible(last) && last.vm.Some? then [Retrieve(inventory, last.vm.value)] else [])
  }

  /**
   The handler: walks the events in order and sends a row for every eligible
   one whose machine has guest info. `crashed` reports the nil-`Vm` panic,
   which stops the walk at the first eligible event that names no machine.
   */
  method HandleEvent(fields: map<int32, string>, inventory: map<VmRef, VirtualMachine>, events: seq<Event>)
    returns (rows: seq<Row>, crashed: bool)
    ensures crashed <==> exists i :: 0 <= i < |events| && Panics(events[i])
    ensures rows == EventRows(fields, inventory, events[..PanicIndex(events)])
  {
    rows, crashed := [], false;
    var k := 0;
    while k < |events|
      invariant k <= PanicIndex(events)
      invariant rows == EventRows(fields, inventory, events[..k])
      invariant !crashed
    {
      assert events[..k + 1][..k] == events[..k];
      var event := events[k];
      match event.kind {
        case CustomFieldValueChanged | VmRenamed =>
          if event.vm.None? {
            crashed := true;
            break;
          }
          var vm := Retrieve(inventory, event.vm.value);
          if vm.guest.Some? {
            var addr := vm.guest.value.ipAddress;
            var tags := FormatTags(fields, vm.customValue);
            rows := rows + [[addr, DefaultVrf, vm.name, tags]];
          }
        case Other =>
      }
      k := k + 1;
    }
    if !crashed {
      assert events[..|events|] == events;
    }
  }

  /**
   The handler's rows are exactly the rows of the machines retrieved for the
   eligible events: one row per eligible event whose machine has guest info,
   in delivery order.
   */
  lemma {:induction false} EventRowsAreMachineRows(fields: map<int32, string>, inventory: map<VmRef, VirtualMachine>, events: seq<Event>)
    ensures EventRows(fields, inventory, events) == Rows(fields, EligibleMachines(inventory, events))
  {
    if events != [] {
      var front, last := events[..|events| - 1], events[|events| - 1];
      EventRowsAreMachineRows(fields, inventory, front);
      var vms := EligibleMachines(inventory, front);
      if Eligible(last) {
        if last.vm.Some? {
          var vm := Retrieve(inventory, last.vm.value);
          assert (vms + [vm])[..|vms|] == vms;
        } else {
          assert EligibleMachines(inventory, events) == vms;
        }
      } else {
        assert EligibleMachines(inventory, events) == vms;
      }
    }
  }

  /** Two batches delivered one after the other give the rows of the first, then those of the second. */
  lemma {:induction false} EventRowsAppend(fields: map<int32, string>, inventory: map<VmRef, VirtualMachine>, a: seq<Event>, b: seq<Event>)
    ensures EventRows(fields, inventory, a + b) == EventRows(fields, inventory, a) + EventRows(fields, inventory, b)
    decreases |b|
  {
    if b == [] {
      assert a + b == a;
    } else {
      assert (a + b)[..|a + b| - 1] == a + b[..|b| - 1];
      assert (a + b)[|a + b| - 1] == b[|b| - 1];
      EventRowsAppend(fields, inventory, a, b[..|b| - 1]);
    }
  }

  /** A batch in which no event is a custom-field-value change or a rename gives no row at all. */
  lemma {:induction false} IneligibleEventsGiveNoRows(fields: map<int32, string>, inventory: map<VmRef, VirtualMachine>, events: seq<Event>)
    requires forall i :: 0 <= i < |events| ==> !Eligible(events[i])
    ensures EventRows(fields, inventory, events) == []
  {
    if events != [] {
      IneligibleEventsGiveNoRows(fields, inventory, events[..|events| - 1]);
    }
  }

  /** An event whose machine cannot be retrieved gives no row. */
  lemma UnretrievableMachineGivesNoRow(fields: map<int32, string>, inventory: map<VmRef, VirtualMachine>, kind: EventKind, ref: VmRef)
    requires ref !in inventory
    ensures EventRows(fields, inventory, [Event(kind, Some(ref))]) == []
  {
    assert [Event(kind, Some(ref))][..0] == [];
  }
}
