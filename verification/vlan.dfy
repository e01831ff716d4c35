/**
 * The VLAN panel: rows of (VLAN ID, name, member port). The dialog checks that the ID is
 * a number from 1 to 4094 and that a port number was typed; the preview turns the
 * selected row into a `vlan` block.
 */
module Vlan {
  import opened Optional
  import opened Text
  import opened Store
  import opened Commands
  import Ports

  datatype Entry = Entry(id: string, name: string, port: string)

  /** The dialog's fields as typed: ID, name, the port-type combo and the port number. */
  datatype Form = Form(id: string, name: string, portType: string, portNumber: string)

  const Demo: seq<Entry> := [
    Entry("10", "办公网", "GE口1/0/1"),
    Entry("20", "服务器", "XGE口1/0/5"),
    Entry("30", "普通终端", "E口0/0/2"),
    Entry("40", "旧设备", "FE口0/1/1")
  ]

  const MissingFields: string := "请填写VLAN ID和端口号"
  const BadId: string := "VLAN ID须为1~4094的数字！"
  const NoSelection: string := "请先选择VLAN条目"

  /** The new-VLAN dialog: empty fields, first port type selected. */
  const Blank: Form := Form("", "", Ports.XgeLabel, "")

  /** The edit dialog opened on a row. */
  function EditForm(e: Entry): (f: Form)
    ensures f.id == e.id && f.name == e.name
    ensures f.portType in Ports.Labels
  {
    var s := Ports.Prefill(e.port);
    Form(e.id, e.name, s.portType, s.number)
  }

  /** What every stored row satisfies once it went through the dialog. */
  predicate Valid(e: Entry) {
    IsTrimmed(e.id) && IsTrimmed(e.name) && ParsesInRange(e.id, 1, 4094)
  }

  /** The OK button's checks, in the source's order. */
  function Validate(f: Form): (r: Checked<Entry>)
    ensures r.Accepted? <==> Trim(f.id) != "" && Trim(f.portNumber) != "" && ParsesInRange(Trim(f.id), 1, 4094)
    ensures r.Accepted? ==> Valid(r.row)
    ensures r.Accepted? ==> r.row.id == Trim(f.id) && r.row.name == Trim(f.name)
    ensures r.Accepted? ==> r.row.port == f.portType + Trim(f.portNumber)
    ensures r.Refused? && (Trim(f.id) == "" || Trim(f.portNumber) == "") ==> r.warning == MissingFields
    ensures r.Refused? && Trim(f.id) != "" && Trim(f.portNumber) != "" ==> r.warning == BadId
  {
    var id := Trim(f.id);
    var number := Trim(f.portNumber);
    if id == "" || number == "" then Refused(MissingFields)
    else if !ParsesInRange(id, 1, 4094) then Refused(BadId)
    else Accepted(Entry(id, Trim(f.name), Ports.Compose(f.portType, f.portNumber)))
  }

  /** The generated commands for one row. */
  function Script(e: Entry): (r: seq<string>)
    ensures |r| == if e.name == "" then 3 else 4
    ensures r[0] == "vlan " + e.id && r[|r| - 1] == "quit"
  {
    Block(e.id, e.name, Ports.MapPort(e.port))
  }

  /** The `vlan` block for an ID, a name and an already mapped interface. */
  function Block(id: string, name: string, iface: string): seq<string> {
    ["vlan " + id] + When(name != "", " description " + name) + [" port " + iface, "quit"]
  }

  /** The preview button. */
  function Preview(t: seq<Entry>, sel: Option<nat>): (r: Output)
    requires ValidSelection(t, sel)
    ensures sel.None? <==> r == Prompt(NoSelection)
    ensures sel.Some? ==> r == Lines(Script(t[sel.value]))
  {
    if sel.None? then Prompt(NoSelection) else Lines(Script(t[sel.value]))
  }

  /** The `description` command carries the name, and appears exactly when the name is not empty. */
  lemma DescriptionCarriesName(e: Entry)
    ensures ValueAfter(Script(e), " description ") == if e.name == "" then None else Some(e.name)
  {
    BlockDescription(e.id, e.name, Ports.MapPort(e.port));
  }

  lemma BlockDescription(id: string, name: string, iface: string)
    ensures ValueAfter(Block(id, name, iface), " description ") == if name == "" then None else Some(name)
  {
    var d := " description ";
    var head := "vlan " + id;
    var port := " port " + iface;
    DiffersAt(d, head, 0);
    DiffersAt(d, port, 1);
    DiffersAt(d, "quit", 0);
    PrefixValue(d, name);
    ValueAfterCons(head, When(name != "", d + name) + [port, "quit"], d);
    ValueAfterAppend(When(name != "", d + name), [port, "quit"], d);
    ValueAfterCons(port, ["quit"], d);
    ValueAfterCons("quit", [], d);
    if name != "" {
      ValueAfterCons(d + name, [], d);
    }
  }

  /** The `port` command names the row's port in VRP notation. */
  lemma PortLineCarriesPort(e: Entry)
    ensures ValueAfter(Script(e), " port ") == Some(Ports.MapPort(e.port))
  {
    BlockPort(e.id, e.name, Ports.MapPort(e.port));
  }

  lemma BlockPort(id: string, name: string, iface: string)
    ensures ValueAfter(Block(id, name, iface), " port ") == Some(iface)
  {
    var p := " port ";
    var head := "vlan " + id;
    var desc := When(name != "", " description " + name);
    var port := p + iface;
    DiffersAt(p, head, 0);
    PrefixValue(p, iface);
    ValueAfterCons(head, desc + [port, "quit"], p);
    ValueAfterAppend(desc, [port, "quit"], p);
    if name != "" {
      DiffersAt(p, " description " + name, 1);
      ValueAfterCons(" description " + name, [], p);
    }
    ValueAfterCons(port, ["quit"], p);
  }

  /**
   * A VLAN saved through the dialog is configured on the interface the user picked: the
   * VRP name of the selected type, the leftover "口" for the three longer labels, then the
   * trimmed number.
   */
  lemma SavedVlanPort(f: Form, k: Ports.Kind)
    requires k != Ports.Unknown && f.portType == Ports.Label(k)
    requires Validate(f).Accepted?
    ensures ValueAfter(Script(Validate(f).row), " port ") ==
      Some(Ports.InterfaceName(k) + Ports.Leftover(k) + Trim(f.portNumber))
  {
    PortLineCarriesPort(Validate(f).row);
    Ports.PreviewOfComposed(k, f.portNumber);
  }

  /**
   * Opening the edit dialog on a saved row and pressing OK unchanged keeps the ID and the
   * name; the port is kept exactly when its type is "E口".
   */
  lemma ResaveKeepsEntry(e: Entry, k: Ports.Kind, number: string)
    requires Valid(e) && k != Ports.Unknown && IsTrimmed(number) && number != ""
    requires e.port == Ports.Label(k) + number
    ensures Validate(EditForm(e)).Accepted?
    ensures Validate(EditForm(e)).row.id == e.id && Validate(EditForm(e)).row.name == e.name
    ensures Validate(EditForm(e)).row == e <==> k == Ports.Eth
  {
    TrimOfTrimmed(e.id);
    TrimOfTrimmed(e.name);
    Ports.ResaveKnownPort(k, number);
    Ports.PrefillLabelled(k, number);
    var f := EditForm(e);
    assert f.portNumber == Ports.Leftover(k) + number;
    TrimOfTrimmed(Ports.Leftover(k) + number);
    assert Validate(f).row.port == Ports.ResaveOnce(e.port);
  }
}
