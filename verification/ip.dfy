/**
 * The interface-IP panel: rows of (IP address, mask, interface). The dialog only checks
 * that the three fields are filled in; the preview emits an `interface` block with an
 * `ip address` command.
 */
module Ip {
  import opened Optional
  import opened Text
  import opened Store
  import opened Commands
  import Ports

  datatype Entry = Entry(ip: string, mask: string, iface: string)

  /** The dialog's fields as typed: address, mask, the interface-type combo and the interface number. */
  datatype Form = Form(ip: string, mask: string, ifaceType: string, ifaceNumber: string)

  const Demo: seq<Entry> := [
    Entry("192.168.1.1", "255.255.255.0", "GE口1/0/1"),
    Entry("10.1.1.254", "255.255.255.0", "XGE口1/0/5"),
    Entry("172.16.0.1", "255.255.0.0", "E口0/0/2"),
    Entry("192.168.2.1", "255.255.255.0", "FE口0/1/1")
  ]

  const MissingFields: string := "请填写IP、掩码和接口号"
  const NoSelection: string := "请先选择IP条目"

  /** The edit dialog opened on a row. */
  function EditForm(e: Entry): (f: Form)
    ensures f.ip == e.ip && f.mask == e.mask
    ensures f.ifaceType in Ports.Labels
  {
    var s := Ports.Prefill(e.iface);
    Form(e.ip, e.mask, s.portType, s.number)
  }

  /** The OK button: all three fields must be non-blank; nothing checks the address format. */
  function Validate(f: Form): (r: Checked<Entry>)
    ensures r.Accepted? <==> Trim(f.ip) != "" && Trim(f.mask) != "" && Trim(f.ifaceNumber) != ""
    ensures r.Accepted? ==> r.row == Entry(Trim(f.ip), Trim(f.mask), Ports.Compose(f.ifaceType, f.ifaceNumber))
    ensures r.Refused? ==> r.warning == MissingFields
  {
    var ip := Trim(f.ip);
    var mask := Trim(f.mask);
    var number := Trim(f.ifaceNumber);
    if ip == "" || mask == "" || number == "" then Refused(MissingFields)
    else Accepted(Entry(ip, mask, Ports.Compose(f.ifaceType, f.ifaceNumber)))
  }

  /** The generated commands for one row. */
  function Script(e: Entry): (r: seq<string>)
    ensures |r| == 3 && r[2] == "quit"
  {
    Block(Ports.MapPort(e.iface), e.ip, e.mask)
  }

  function Block(iface: string, ip: string, mask: string): seq<string> {
    ["interface " + iface, " ip address " + ip + " " + mask, "quit"]
  }

  /** The preview button. */
  function Preview(t: seq<Entry>, sel: Option<nat>): (r: Output)
    requires ValidSelection(t, sel)
    ensures sel.None? <==> r == Prompt(NoSelection)
    ensures sel.Some? ==> r == Lines(Script(t[sel.value]))
  {
    if sel.None? then Prompt(NoSelection) else Lines(Script(t[sel.value]))
  }

  /**
   * The block configures the row's interface in VRP notation and assigns it the row's
   * address and mask, in that order.
   */
  lemma ScriptCarriesAddress(e: Entry)
    ensures ValueAfter(Script(e), "interface ") == Some(Ports.MapPort(e.iface))
    ensures ValueAfter(Script(e), " ip address ") == Some(e.ip + " " + e.mask)
  {
    BlockValues(Ports.MapPort(e.iface), e.ip, e.mask);
  }

  lemma BlockValues(iface: string, ip: string, mask: string)
    ensures ValueAfter(Block(iface, ip, mask), "interface ") == Some(iface)
    ensures ValueAfter(Block(iface, ip, mask), " ip address ") == Some(ip + " " + mask)
  {
    var l0 := "interface " + iface;
    var l1 := " ip address " + ip + " " + mask;
    assert l1 == " ip address " + (ip + " " + mask);
    PrefixValue("interface ", iface);
    PrefixValue(" ip address ", ip + " " + mask);
    DiffersAt(" ip address ", l0, 0);
    ValueAfterCons(l0, [l1, "quit"], "interface ");
    ValueAfterCons(l0, [l1, "quit"], " ip address ");
    ValueAfterCons(l1, ["quit"], " ip address ");
  }

  /**
   * An interface saved with type "E口" survives an unchanged edit; every other label gains
   * a "口", so re-saving changes the stored row.
   */
  lemma ResaveKeepsEntry(e: Entry, k: Ports.Kind, number: string)
    requires IsTrimmed(e.ip) && IsTrimmed(e.mask) && e.ip != "" && e.mask != ""
    requires k != Ports.Unknown && IsTrimmed(number) && number != ""
    requires e.iface == Ports.Label(k) + number
    ensures Validate(EditForm(e)).Accepted?
    ensures Validate(EditForm(e)).row == e <==> k == Ports.Eth
  {
    TrimOfTrimmed(e.ip);
    TrimOfTrimmed(e.mask);
    Ports.ResaveKnownPort(k, number);
    Ports.PrefillLabelled(k, number);
    var f := EditForm(e);
    assert f.ifaceNumber == Ports.Leftover(k) + number;
    TrimOfTrimmed(Ports.Leftover(k) + number);
    assert Validate(f).row.iface == Ports.ResaveOnce(e.iface);
  }
}
