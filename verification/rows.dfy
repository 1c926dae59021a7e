/**
 The data rows built from virtual machines, shared by the snapshot loop
 (main.go:155-178) and the event handler (main.go:210-225). A machine with
 guest info gives the row `[address, "Default", name, tags]`; a machine
 without guest info gives nothing. The address is not checked: the guard
 `&vm.Guest.IpAddress != nil` compares the address of a field with nil and
 always holds, so an empty address still gives a row.
 */
module RowBuilder {
  import opened Inventory
  import opened Tags

  /** The row of a machine that has guest info. */
  function GuestRow(fields: map<int32, string>, vm: VirtualMachine): Row
    requires vm.guest.Some?
  {
    [vm.guest.value.ipAddress, DefaultVrf, vm.name, TagString(fields, vm.customValue)]
  }

  /** The rows one machine contributes: its row when it has guest info, none otherwise. */
  function RowsOf(fields: map<int32, string>, vm: VirtualMachine): seq<Row> {
    if vm.guest.Some? then [GuestRow(fields, vm)] else []
  }

  /** The rows of a list of machines, in list order; each has the header's four columns and "Default" second. */
  function Rows(fields: map<int32, string>, vms: seq<VirtualMachine>): (rows: seq<Row>)
    ensures forall i :: 0 <= i < |rows| ==> |rows[i]| == |Header| && rows[i][1] == DefaultVrf
  {
    if vms == [] then []
    else Rows(fields, vms[..|vms| - 1]) + RowsOf(fields, vms[|vms| - 1])
  }

  /** The machines of `vms` that have guest info, in list order. */
  function WithGuest(vms: seq<VirtualMachine>): (r: seq<VirtualMachine>)
    ensures forall i :: 0 <= i < |r| ==> r[i].guest.Some?
    ensures forall vm :: vm in r <==> vm in vms && vm.guest.Some?
  {
    if vms == [] then []
    else
      var last := vms[|vms| - 1];
      WithGuest(vms[..|vms| - 1]) + (if last.guest.Some? then [last] else [])
  }

  /** Exactly one row per machine with guest info, in list order, and nothing else. */
  lemma {:induction false} RowsOfGuests(fields: map<int32, string>, vms: seq<VirtualMachine>)
    ensures |Rows(fields, vms)| == |WithGuest(vms)|
    ensures forall i :: 0 <= i < |WithGuest(vms)| ==> Rows(fields, vms)[i] == GuestRow(fields, WithGuest(vms)[i])
  {
    if vms != [] {
      RowsOfGuests(fields, vms[..|vms| - 1]);
    }
  }

  /** Rows of a concatenation are the concatenation of the rows. */
  lemma {:induction false} RowsAppend(fields: map<int32, string>, a: seq<VirtualMachine>, b: seq<VirtualMachine>)
    ensures Rows(fields, a + b) == Rows(fields, a) + Rows(fields, b)
    decreases |b|
  {
    if b == [] {
      assert a + b == a;
    } else {
      assert (a + b)[..|a + b| - 1] == a + b[..|b| - 1];
      assert (a + b)[|a + b| - 1] == b[|b| - 1];
      RowsAppend(fields, a, b[..|b| - 1]);
    }
  }

  /** Every data row is the row of some machine of the list that has guest info. */
  lemma RowsComeFromGuests(fields: map<int32, string>, vms: seq<VirtualMachine>)
    ensures forall i :: 0 <= i < |Rows(fields, vms)| ==>
              exists vm :: vm in vms && vm.guest.Some? && Rows(fields, vms)[i] == GuestRow(fields, vm)
  {
    RowsOfGuests(fields, vms);
    var rows, guests := Rows(fields, vms), WithGuest(vms);
    forall i | 0 <= i < |rows|
      ensures exists vm :: vm in vms && vm.guest.Some? && rows[i] == GuestRow(fields, vm)
    {
      assert rows[i] == GuestRow(fields, guests[i]);
      assert guests[i] in guests;
    }
  }
}
