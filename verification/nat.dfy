/**
 * The NAT panel: policies (name, type, source address, destination address, interface,
 * description). A "源NAT" policy becomes an address group translating outbound traffic from
 * the source address; any other type becomes a NAT server for the destination address.
 */
module Nat {
  import opened Optional
  import opened Text
  import opened Store
  import opened Commands

  datatype Policy = Policy(name: string, kind: string, source: string, destination: string, iface: string, description: string)

  const SourceNat: string := "源NAT"
  const Kinds: seq<string> := [SourceNat, "目的NAT"]

  /** The address written when the relevant address field is empty. */
  const AnyAddress: string := "any"

  const Demo: seq<Policy> := [
    Policy("nat_out1", SourceNat, "192.168.10.0/24", "any", "GigabitEthernet0/0/1", "办公区上网"),
    Policy("nat_dmz", "目的NAT", "any", "10.1.1.8", "GigabitEthernet0/0/2", "DMZ服务器")
  ]

  const MissingFields: string := "请填写策略名称、类型和接口"
  const NoSelection: string := "请先选择NAT策略条目"

  datatype Form = Form(name: string, kind: string, source: string, destination: string, iface: string, description: string)

  const NewForm: Form := Form("", SourceNat, "", "", "", "")

  function EditForm(p: Policy): (f: Form)
    ensures f.kind in Kinds
    ensures p.kind in Kinds ==> f == Form(p.name, p.kind, p.source, p.destination, p.iface, p.description)
  {
    Form(p.name, Combo(Kinds, p.kind), p.source, p.destination, p.iface, p.description)
  }

  /** The OK button: name, type and interface are required; the addresses are free text. */
  function Validate(f: Form): (r: Checked<Policy>)
    ensures r.Accepted? <==> Trim(f.name) != "" && f.kind != "" && Trim(f.iface) != ""
    ensures r.Accepted? ==> r.row == Policy(Trim(f.name), f.kind, Trim(f.source), Trim(f.destination), Trim(f.iface), Trim(f.description))
    ensures r.Refused? ==> r.warning == MissingFields
  {
    var name := Trim(f.name);
    var iface := Trim(f.iface);
    if name == "" || f.kind == "" || iface == "" then Refused(MissingFields)
    else Accepted(Policy(name, f.kind, Trim(f.source), Trim(f.destination), iface, Trim(f.description)))
  }

  /** An empty address field stands for any address. */
  function OrAny(address: string): (r: string)
    ensures r != ""
    ensures r == AnyAddress <==> address == "" || address == AnyAddress
    ensures address != "" ==> r == address
  {
    if address == "" then AnyAddress else address
  }

  /** The header: an address group for source NAT, a NAT server otherwise. */
  function Header(p: Policy): (line: string)
    ensures line == "nat address-group " + p.name <==> p.kind == SourceNat
    ensures p.kind != SourceNat ==> line == "nat server " + p.name
  {
    if p.kind == SourceNat then
      "nat address-group " + p.name
    else
      DiffersAt("nat address-group " + p.name, "nat server " + p.name, 4);
      "nat server " + p.name
  }

  /** The single translation rule: which address and which direction depend on the type alone. */
  function RuleLine(p: Policy): (line: string)
    ensures p.kind == SourceNat ==> line == " rule 1 source-address " + OrAny(p.source) + " outbound-interface " + p.iface
    ensures p.kind != SourceNat ==> line == " rule 1 destination-address " + OrAny(p.destination) + " inbound-interface " + p.iface
  {
    if p.kind == SourceNat then
      " rule 1 source-address " + OrAny(p.source) + " outbound-interface " + p.iface
    else
      " rule 1 destination-address " + OrAny(p.destination) + " inbound-interface " + p.iface
  }

  function Script(p: Policy): (r: seq<string>)
    ensures |r| == if p.description == "" then 3 else 4
    ensures r[0] == Header(p) && r[|r| - 2] == RuleLine(p) && r[|r| - 1] == " quit"
    ensures p.description != "" <==> r[1] == " description " + p.description
  {
    [Header(p)] + When(p.description != "", " description " + p.description) + [RuleLine(p), " quit"]
  }

  function Preview(t: seq<Policy>, sel: Option<nat>): (r: Output)
    requires ValidSelection(t, sel)
    ensures sel.None? <==> r == Prompt(NoSelection)
    ensures sel.Some? ==> r == Lines(Script(t[sel.value]))
  {
    if sel.None? then Prompt(NoSelection) else Lines(Script(t[sel.value]))
  }

  /** A source-NAT policy ignores its destination field, and any other policy ignores its source field. */
  lemma UnusedAddressIgnored(p: Policy, other: string)
    ensures p.kind == SourceNat ==> Script(p.(destination := other)) == Script(p)
    ensures p.kind != SourceNat ==> Script(p.(source := other)) == Script(p)
  {
  }

  /** The rule names the interface, in the direction the type implies, and the address or `any`. */
  lemma RuleCarriesInterface(p: Policy)
    ensures var line := Script(p)[|Script(p)| - 2];
      (p.kind == SourceNat ==> ValueAfter([line], " rule 1 source-address ") == Some(OrAny(p.source) + " outbound-interface " + p.iface))
      && (p.kind != SourceNat ==> ValueAfter([line], " rule 1 destination-address ") == Some(OrAny(p.destination) + " inbound-interface " + p.iface))
  {
    var line := RuleLine(p);
    if p.kind == SourceNat {
      var v := OrAny(p.source) + " outbound-interface " + p.iface;
      assert line == " rule 1 source-address " + v;
      PrefixValue(" rule 1 source-address ", v);
      ValueAfterCons(line, [], " rule 1 source-address ");
    } else {
      var v := OrAny(p.destination) + " inbound-interface " + p.iface;
      assert line == " rule 1 destination-address " + v;
      PrefixValue(" rule 1 destination-address ", v);
      ValueAfterCons(line, [], " rule 1 destination-address ");
    }
  }

  /** Leaving the address blank and typing "any" produce the same commands. */
  lemma BlankMeansAny(p: Policy)
    requires p.source == "" && p.destination == ""
    ensures Script(p) == Script(p.(source := AnyAddress, destination := AnyAddress))
  {
  }

  /** Re-saving a stored policy unchanged gives back the same row. */
  lemma ResavePolicy(p: Policy)
    requires IsTrimmed(p.name) && p.name != "" && IsTrimmed(p.iface) && p.iface != "" && p.kind in Kinds
    requires IsTrimmed(p.source) && IsTrimmed(p.destination) && IsTrimmed(p.description)
    ensures Validate(EditForm(p)) == Accepted(p)
  {
    TrimOfTrimmed(p.name);
    TrimOfTrimmed(p.iface);
    TrimOfTrimmed(p.source);
    TrimOfTrimmed(p.destination);
    TrimOfTrimmed(p.description);
  }
}
