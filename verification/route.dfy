/**
 * The routing panel: rows of (route type, destination, mask, next hop, extra parameter).
 * The preview dispatches on the type: a static route is one `ip route-static` command, the
 * RIP, OSPF and BGP types each open their protocol view and announce the destination.
 */
module Route {
  import opened Optional
  import opened Text
  import opened Store
  import opened Commands

  datatype Route = Route(kind: string, destination: string, mask: string, nextHop: string, parameter: string)

  const Static: string := "静态"
  const Kinds: seq<string> := [Static, "RIP", "OSPF", "BGP"]

  /** What the next-hop field shows for the dynamic protocols, which need none. */
  const NoNextHop: string := "-"

  const Demo: seq<Route> := [
    Route(Static, "10.1.1.0", "255.255.255.0", "192.168.1.254", ""),
    Route("RIP", "0.0.0.0", "0.0.0.0", "-", "version 2"),
    Route("OSPF", "192.168.2.0", "255.255.255.0", "-", "area 0")
  ]

  const MissingFields: string := "请填写目的网络和掩码"
  const MissingNextHop: string := "静态路由请填写下一跳地址"
  const NoSelection: string := "请先选择路由条目"

  datatype Form = Form(kind: string, destination: string, mask: string, nextHop: string, parameter: string)

  const NewForm: Form := Form(Static, "", "", "", "")

  function EditForm(r: Route): (f: Form)
    ensures f.kind in Kinds
    ensures r.kind in Kinds ==> f == Form(r.kind, r.destination, r.mask, r.nextHop, r.parameter)
  {
    Form(Combo(Kinds, r.kind), r.destination, r.mask, r.nextHop, r.parameter)
  }

  /** The OK button: destination and mask are required; a static route also needs a real next hop. */
  function Validate(f: Form): (r: Checked<Route>)
    ensures r.Accepted? <==>
      Trim(f.destination) != "" && Trim(f.mask) != "" && (f.kind == Static ==> Trim(f.nextHop) != "" && Trim(f.nextHop) != NoNextHop)
    ensures r.Accepted? ==> r.row == Route(f.kind, Trim(f.destination), Trim(f.mask), Trim(f.nextHop), Trim(f.parameter))
    ensures r.Refused? ==>
      r.warning == if Trim(f.destination) == "" || Trim(f.mask) == "" then MissingFields else MissingNextHop
  {
    var destination := Trim(f.destination);
    var mask := Trim(f.mask);
    var nextHop := Trim(f.nextHop);
    if destination == "" || mask == "" then Refused(MissingFields)
    else if f.kind == Static && (nextHop == "" || nextHop == NoNextHop) then Refused(MissingNextHop)
    else Accepted(Route(f.kind, destination, mask, nextHop, Trim(f.parameter)))
  }

  /** An empty parameter falls back to the protocol's default (RIP version 2, OSPF area 0). */
  function OrDefault(parameter: string, default: string): (r: string)
    ensures parameter != "" ==> r == parameter
    ensures parameter == "" ==> r == default
  {
    if parameter == "" then default else parameter
  }

  function StaticScript(r: Route): seq<string> {
    ["ip route-static " + r.destination + " " + r.mask + " " + r.nextHop]
  }

  function RipScript(r: Route): seq<string> {
    ["rip", " version " + OrDefault(r.parameter, "2"), " network " + r.destination, " quit"]
  }

  function OspfScript(r: Route): seq<string> {
    ["ospf 1", " area " + OrDefault(r.parameter, "0"), " network " + r.destination + " " + r.mask, " quit"]
  }

  function BgpScript(r: Route): seq<string> {
    ["bgp 100", " network " + r.destination + " mask " + r.mask] + When(r.parameter != "", " " + r.parameter) + [" quit"]
  }

  /** The commands for one route; a type outside the four known ones produces nothing. */
  function Script(r: Route): (lines: seq<string>)
    ensures r.kind == Static ==> |lines| == 1
    ensures r.kind == "RIP" || r.kind == "OSPF" ==> |lines| == 4 && lines[3] == " quit"
    ensures r.kind == "BGP" ==> |lines| == (if r.parameter == "" then 3 else 4) && lines[|lines| - 1] == " quit"
    ensures lines == [] <==> r.kind !in Kinds
  {
    if r.kind == Static then StaticScript(r)
    else if r.kind == "RIP" then RipScript(r)
    else if r.kind == "OSPF" then OspfScript(r)
    else if r.kind == "BGP" then BgpScript(r)
    else []
  }

  function Preview(t: seq<Route>, sel: Option<nat>): (r: Output)
    requires ValidSelection(t, sel)
    ensures sel.None? <==> r == Prompt(NoSelection)
    ensures sel.Some? ==> r == Lines(Script(t[sel.value]))
  {
    if sel.None? then Prompt(NoSelection) else Lines(Script(t[sel.value]))
  }

  /** A static route is a single command carrying destination, mask and next hop. */
  lemma StaticCarriesNextHop(r: Route)
    requires r.kind == Static
    ensures ValueAfter(Script(r), "ip route-static ") == Some(r.destination + " " + r.mask + " " + r.nextHop)
  {
    var v := r.destination + " " + r.mask + " " + r.nextHop;
    var line := "ip route-static " + r.destination + " " + r.mask + " " + r.nextHop;
    assert line == "ip route-static " + v;
    assert Script(r) == [line];
    PrefixValue("ip route-static ", v);
    ValueAfterCons("ip route-static " + v, [], "ip route-static ");
  }

  /** A static route the dialog accepted never routes to the placeholder next hop. */
  lemma SavedStaticHasNextHop(f: Form)
    requires f.kind == Static && Validate(f).Accepted?
    ensures var r := Validate(f).row;
      ValueAfter(Script(r), "ip route-static ") == Some(r.destination + " " + r.mask + " " + r.nextHop)
      && r.nextHop != "" && r.nextHop != NoNextHop
  {
    StaticCarriesNextHop(Validate(f).row);
  }

  /** RIP announces version 2 unless the parameter names another; the destination is the network. */
  lemma RipDefaults(r: Route)
    requires r.kind == "RIP"
    ensures ValueAfter(Script(r), " version ") == Some(if r.parameter == "" then "2" else r.parameter)
    ensures ValueAfter(Script(r), " network ") == Some(r.destination)
  {
    var v := OrDefault(r.parameter, "2");
    var l0 := "rip";
    var l1 := " version " + v;
    var l2 := " network " + r.destination;
    assert Script(r) == [l0] + ([l1] + ([l2] + [" quit"]));
    PrefixValue(" version ", v);
    PrefixValue(" network ", r.destination);
    DiffersAt(" network ", l1, 1);
    ValueAfterCons(l0, [l1] + ([l2] + [" quit"]), " version ");
    ValueAfterCons(l1, [l2] + [" quit"], " version ");
    ValueAfterCons(l0, [l1] + ([l2] + [" quit"]), " network ");
    ValueAfterCons(l1, [l2] + [" quit"], " network ");
    ValueAfterCons(l2, [" quit"], " network ");
  }

  /** OSPF process 1 uses area 0 unless the parameter names another, and announces destination and mask. */
  lemma OspfDefaults(r: Route)
    requires r.kind == "OSPF"
    ensures ValueAfter(Script(r), " area ") == Some(if r.parameter == "" then "0" else r.parameter)
    ensures ValueAfter(Script(r), " network ") == Some(r.destination + " " + r.mask)
  {
    var v := OrDefault(r.parameter, "0");
    var l0 := "ospf 1";
    var l1 := " area " + v;
    var l2 := " network " + r.destination + " " + r.mask;
    assert l2 == " network " + (r.destination + " " + r.mask);
    assert Script(r) == [l0] + ([l1] + ([l2] + [" quit"]));
    PrefixValue(" area ", v);
    PrefixValue(" network ", r.destination + " " + r.mask);
    DiffersAt(" network ", l1, 1);
    ValueAfterCons(l0, [l1] + ([l2] + [" quit"]), " area ");
    ValueAfterCons(l1, [l2] + [" quit"], " area ");
    ValueAfterCons(l0, [l1] + ([l2] + [" quit"]), " network ");
    ValueAfterCons(l1, [l2] + [" quit"], " network ");
    ValueAfterCons(l2, [" quit"], " network ");
  }

  /** BGP AS 100 announces the destination with its mask; the parameter is a line of its own iff it is non-empty. */
  lemma BgpParameter(r: Route)
    requires r.kind == "BGP"
    ensures Script(r)[1] == " network " + r.destination + " mask " + r.mask
    ensures r.parameter != "" <==> Script(r)[2] == " " + r.parameter
  {
  }

  /**
   * The demo RIP and OSPF rows store the keyword inside the parameter, so their previews
   * repeat it: ` version version 2` and ` area area 0`.
   */
  lemma DemoRepeatsKeyword()
    ensures Script(Demo[1])[1] == " version version 2"
    ensures Script(Demo[2])[1] == " area area 0"
  {
  }

  /** Re-saving a stored route unchanged gives back the same row. */
  lemma ResaveRoute(r: Route)
    requires IsTrimmed(r.destination) && r.destination != "" && IsTrimmed(r.mask) && r.mask != ""
    requires IsTrimmed(r.nextHop) && IsTrimmed(r.parameter) && r.kind in Kinds
    requires r.kind == Static ==> r.nextHop != "" && r.nextHop != NoNextHop
    ensures Validate(EditForm(r)) == Accepted(r)
  {
    TrimOfTrimmed(r.destination);
    TrimOfTrimmed(r.mask);
    TrimOfTrimmed(r.nextHop);
    TrimOfTrimmed(r.parameter);
  }
}
