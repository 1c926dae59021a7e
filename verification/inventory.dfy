/**
 The inventory entities the exporter works on: the custom-field definitions
 of vCenter, the custom values attached to a virtual machine, the part of a
 virtual machine's properties that is retrieved ("name", "guest.ipAddress",
 "customValue"), and the four-column rows that are sent to Tetration.
 */
module Inventory {

  /** Go's `int32`, the type of a custom field's key. */
  newtype int32 = x: int | -0x8000_0000 <= x < 0x8000_0000

  datatype Option<+T> = None | Some(value: T)

  /** A custom-field definition: the numeric key and its human-readable name. */
  datatype FieldDef = FieldDef(key: int32, name: string)

  /** One custom value of a virtual machine: the field key and its string value. */
  datatype CustomValue = CustomValue(key: int32, value: string)

  /** The guest information of a virtual machine (only the address is retrieved). */
  datatype GuestInfo = GuestInfo(ipAddress: string)

  /** The retrieved properties of a virtual machine; `guest` is None when vCenter reports no guest info. */
  datatype VirtualMachine = VirtualMachine(name: string, guest: Option<GuestInfo>, customValue: seq<CustomValue>)

  /** The Go zero value of a virtual machine, which is what a failed retrieval leaves behind. */
  const ZeroVirtualMachine: VirtualMachine := VirtualMachine("", None, [])

  /** A row of the CSV payload, as its string fields (the byte-level quoting is not modelled). */
  type Row = seq<string>

  /** The header row of every payload. */
  const Header: Row := ["IP", "VRF", "VM Name", "VM Tags"]

  /** The fixed VRF label of every data row. */
  const DefaultVrf: string := "Default"
}
