/**
 The one-shot snapshot (main.go:140-181): the field map is built, the
 retrieved machines are sorted by name in place, and the payload is the
 header row followed by one row per machine that has guest info.
 */
module Snapshot {
  import opened Inventory
  import opened Tags
  import opened ByName
  import opened RowBuilder

  /** The snapshot loop: the header, then the row of every machine with guest info, in list order. */
  method BuildPayload(fields: map<int32, string>, vms: seq<VirtualMachine>) returns (payload: seq<Row>)
    ensures payload == [Header] + Rows(fields, vms)
  {
    payload := [Header];
    for k := 0 to |vms|
      invariant payload == [Header] + Rows(fields, vms[..k])
    {
      assert vms[..k + 1][..k] == vms[..k];
      var vm := vms[k];
      if vm.guest.Some? {
        var addr := vm.guest.value.ipAddress;
        var tags := FormatTags(fields, vm.customValue);
        payload := payload + [[addr, DefaultVrf, vm.name, tags]];
      }
    }
    assert vms[..|vms|] == vms;
  }

  /**
   The snapshot as a whole: the field map from the definitions, the machines
   sorted by name in place, and the payload that main.go:192 uploads (the
   upload itself is not part of this model).
   */
  method TakeSnapshot(defs: seq<FieldDef>, vms: array<VirtualMachine>) returns (fields: map<int32, string>, payload: seq<Row>)
    modifies vms
    ensures IsFieldMap(defs, fields)
    ensures SortedByName(vms[..]) && multiset(vms[..]) == old(multiset(vms[..]))
    ensures payload == [Header] + Rows(fields, vms[..])
  {
    fields := BuildFieldMap(defs);
    SortByName(vms);
    payload := BuildPayload(fields, vms[..]);
  }

  /** Keeping only the machines with guest info keeps the name order. */
  lemma {:induction false} WithGuestKeepsOrder(vms: seq<VirtualMachine>)
    requires SortedByName(vms)
    ensures SortedByName(WithGuest(vms))
  {
    if vms != [] {
      var front, last := vms[..|vms| - 1], vms[|vms| - 1];
      assert SortedByName(front);
      WithGuestKeepsOrder(front);
      if last.guest.Some? {
        var g := WithGuest(front);
        forall i | 0 <= i < |g|
          ensures !NameLess(last.name, g[i].name)
        {
          assert g[i] in front;
          var k :| 0 <= k < |front| && front[k] == g[i];
        }
      }
    }
  }

  /** After the sort, the name column of the snapshot rows is in name order. */
  lemma SnapshotRowsInNameOrder(fields: map<int32, string>, vms: seq<VirtualMachine>)
    requires SortedByName(vms)
    ensures forall i, j :: 0 <= i < j < |Rows(fields, vms)| ==>
              !NameLess(Rows(fields, vms)[j][2], Rows(fields, vms)[i][2])
  {
    RowsOfGuests(fields, vms);
    WithGuestKeepsOrder(vms);
    var rows, guests := Rows(fields, vms), WithGuest(vms);
    forall i, j | 0 <= i < j < |rows|
      ensures !NameLess(rows[j][2], rows[i][2])
    {
      assert rows[i][2] == guests[i].name && rows[j][2] == guests[j].name;
    }
  }

  /**
   A machine without guest info gives no row, but a machine whose guest info
   has an empty address does: the address is not filtered.
   */
  lemma GuestInfoIsTheOnlyFilter()
    ensures var fields: map<int32, string> := map[1 := "env"];
            var a := VirtualMachine("A", Some(GuestInfo("10.0.0.1")), [CustomValue(1, "prod")]);
            Rows(fields, [a, VirtualMachine("B", None, [])]) == [["10.0.0.1", "Default", "A", "env=prod;"]] &&
            Rows(fields, [a, VirtualMachine("B", Some(GuestInfo("")), [])]) ==
              [["10.0.0.1", "Default", "A", "env=prod;"], ["", "Default", "B", ""]]
  {
    var fields: map<int32, string> := map[1 := "env"];
    var a := VirtualMachine("A", Some(GuestInfo("10.0.0.1")), [CustomValue(1, "prod")]);
    var b0, b1 := VirtualMachine("B", None, []), VirtualMachine("B", Some(GuestInfo("")), []);
    assert [CustomValue(1, "prod")][..0] == [];
    assert TagString(fields, a.customValue) == "env=prod;";
    assert [a, b0][..1] == [a] && [a, b1][..1] == [a] && [a][..0] == [];
    assert Rows(fields, [a]) == [["10.0.0.1", "Default", "A", "env=prod;"]];
  }
}
