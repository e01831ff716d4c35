/**
 * The port-security panel: rows of (port, maximum MAC count, sticky MAC addresses, violation
 * action). The preview enables port security on the port, limits the learned addresses,
 * pins every listed MAC address as sticky and sets the violation action.
 */
module PortSecurity {
  import opened Optional
  import opened Text
  import opened Store
  import opened Commands

  datatype Setting = Setting(port: string, maxMacs: string, macs: string, action: string)

  const Actions: seq<string> := ["shutdown", "restrict", "protect"]

  const Demo: seq<Setting> := [
    Setting("GigabitEthernet0/0/1", "2", "00e0-fc12-3456", "shutdown"),
    Setting("GigabitEthernet0/0/2", "1", "", "restrict")
  ]

  const MissingFields: string := "请填写端口和最大MAC数"
  const BadMaxMacs: string := "最大MAC数须为1~128的数字！"
  const NoSelection: string := "请先选择端口安全配置条目"

  datatype Form = Form(port: string, maxMacs: string, macs: string, action: string)

  /** The new-setting dialog: at most one MAC address, violation action `shutdown`. */
  const NewForm: Form := Form("", "1", "", "shutdown")

  function EditForm(s: Setting): (f: Form)
    ensures f.action in Actions
    ensures s.action in Actions ==> f == Form(s.port, s.maxMacs, s.macs, s.action)
  {
    Form(s.port, s.maxMacs, s.macs, Combo(Actions, s.action))
  }

  /** The OK button: port and maximum are required, and the maximum must be 1..128. */
  function Validate(f: Form): (r: Checked<Setting>)
    ensures r.Accepted? <==> Trim(f.port) != "" && ParsesInRange(Trim(f.maxMacs), 1, 128)
    ensures r.Accepted? ==> r.row == Setting(Trim(f.port), Trim(f.maxMacs), Trim(f.macs), f.action)
    ensures r.Refused? ==> r.warning == if Trim(f.port) == "" || Trim(f.maxMacs) == "" then MissingFields else BadMaxMacs
  {
    var port := Trim(f.port);
    var maxMacs := Trim(f.maxMacs);
    if port == "" || maxMacs == "" then Refused(MissingFields)
    else if !ParsesInRange(maxMacs, 1, 128) then Refused(BadMaxMacs)
    else Accepted(Setting(port, maxMacs, Trim(f.macs), f.action))
  }

  const MacPrefix: string := " port-security mac-address "
  const ViolationPrefix: string := " port-security violation "

  /** One sticky entry per listed address, in the order typed. */
  function StickyLines(macs: seq<string>): (r: seq<string>)
    ensures |r| == |macs|
    ensures forall k :: 0 <= k < |macs| ==> r[k] == MacPrefix + macs[k] + " sticky"
  {
    if |macs| == 0 then [] else [MacPrefix + macs[0] + " sticky"] + StickyLines(macs[1..])
  }

  /** The violation action is written only when it is one of the three the switch knows. */
  function ViolationLines(action: string): (r: seq<string>)
    ensures |r| <= 1
    ensures r != [] <==> action in Actions
    ensures r != [] ==> r[0] == ViolationPrefix + action
  {
    if action == "shutdown" then [ViolationPrefix + "shutdown"]
    else if action == "restrict" then [ViolationPrefix + "restrict"]
    else if action == "protect" then [ViolationPrefix + "protect"]
    else []
  }

  function Head(s: Setting): seq<string> {
    ["interface " + s.port, " port-security enable", " port-security max-mac-num " + s.maxMacs]
  }

  function Script(s: Setting): (r: seq<string>)
    ensures |r| == 4 + |CommaItems(s.macs)| + |ViolationLines(s.action)|
    ensures r[..3] == Head(s) && r[|r| - 1] == " quit"
    ensures forall k :: 0 <= k < |CommaItems(s.macs)| ==> r[3 + k] == MacPrefix + CommaItems(s.macs)[k] + " sticky"
  {
    Head(s) + StickyLines(CommaItems(s.macs)) + ViolationLines(s.action) + [" quit"]
  }

  function Preview(t: seq<Setting>, sel: Option<nat>): (r: Output)
    requires ValidSelection(t, sel)
    ensures sel.None? <==> r == Prompt(NoSelection)
    ensures sel.Some? ==> r == Lines(Script(t[sel.value]))
  {
    if sel.None? then Prompt(NoSelection) else Lines(Script(t[sel.value]))
  }

  /** One sticky `mac-address` command per non-empty address in the list, and no other. */
  lemma StickyCount(s: Setting)
    ensures CountPrefixed(Script(s), MacPrefix) == |CommaItems(s.macs)|
  {
    var macs := CommaItems(s.macs);
    HeadNotPrefixed(s, MacPrefix);
    StickyAllPrefixed(macs);
    TailNotSticky(s.action);
    CountParts(Head(s), StickyLines(macs), ViolationLines(s.action), MacPrefix);
  }

  /** Every sticky line is counted as a sticky entry. */
  lemma StickyAllPrefixed(macs: seq<string>)
    ensures CountPrefixed(StickyLines(macs), MacPrefix) == |macs|
  {
    var sticky := StickyLines(macs);
    forall k | 0 <= k < |sticky| ensures MacPrefix <= sticky[k] {
      StickyLinePrefixed(macs[k]);
    }
    AllPrefixed(sticky, MacPrefix);
  }

  lemma StickyLinePrefixed(mac: string)
    ensures MacPrefix <= MacPrefix + mac + " sticky"
  {
    assert MacPrefix + mac + " sticky" == MacPrefix + (mac + " sticky");
    PrefixValue(MacPrefix, mac + " sticky");
  }

  /** The violation line and the closing `quit` are not sticky entries. */
  lemma TailNotSticky(action: string)
    ensures CountPrefixed(ViolationLines(action) + [" quit"], MacPrefix) == 0
  {
    var v := ViolationLines(action);
    if v != [] {
      DiffersAt(MacPrefix, v[0], 15);
    }
    DiffersAt(MacPrefix, " quit", 1);
    CountPrefixedAppend(v, [" quit"], MacPrefix);
  }

  /** The script's count splits into its head, its sticky lines and its tail. */
  lemma CountParts(head: seq<string>, sticky: seq<string>, v: seq<string>, p: string)
    ensures CountPrefixed(head + sticky + v + [" quit"], p)
      == CountPrefixed(head, p) + CountPrefixed(sticky, p) + CountPrefixed(v + [" quit"], p)
  {
    assert head + sticky + v + [" quit"] == (head + sticky) + (v + [" quit"]);
    CountPrefixedAppend(head + sticky, v + [" quit"], p);
    CountPrefixedAppend(head, sticky, p);
  }

  /** A violation command appears exactly when the action is known, and it echoes that action. */
  lemma ViolationIffKnown(s: Setting)
    ensures CountPrefixed(Script(s), ViolationPrefix) == if s.action in Actions then 1 else 0
    ensures s.action in Actions ==> ValueAfter(Script(s), ViolationPrefix) == Some(s.action)
  {
    var body := Head(s) + StickyLines(CommaItems(s.macs));
    BodyNotViolation(s);
    ViolationTail(body, s.action);
  }

  /** Nothing before the violation line names a violation action. */
  lemma BodyNotViolation(s: Setting)
    ensures CountPrefixed(Head(s) + StickyLines(CommaItems(s.macs)), ViolationPrefix) == 0
  {
    HeadNotPrefixed(s, ViolationPrefix);
    StickyNotViolation(CommaItems(s.macs));
    CountPrefixedAppend(Head(s), StickyLines(CommaItems(s.macs)), ViolationPrefix);
  }

  /** No sticky line names a violation action. */
  lemma StickyNotViolation(macs: seq<string>)
    ensures CountPrefixed(StickyLines(macs), ViolationPrefix) == 0
  {
    var sticky := StickyLines(macs);
    forall k | 0 <= k < |sticky| ensures !(ViolationPrefix <= sticky[k]) {
      StickyLineNotViolation(macs[k]);
    }
  }

  lemma StickyLineNotViolation(mac: string)
    ensures !(ViolationPrefix <= MacPrefix + mac + " sticky")
  {
    assert (MacPrefix + mac + " sticky")[15] == MacPrefix[15];
    DiffersAt(ViolationPrefix, MacPrefix + mac + " sticky", 15);
  }

  lemma ViolationTail(body: seq<string>, action: string)
    requires CountPrefixed(body, ViolationPrefix) == 0
    ensures CountPrefixed(body + ViolationLines(action) + [" quit"], ViolationPrefix) == if action in Actions then 1 else 0
    ensures action in Actions ==> ValueAfter(body + ViolationLines(action) + [" quit"], ViolationPrefix) == Some(action)
  {
    var v := ViolationLines(action);
    DiffersAt(ViolationPrefix, " quit", 1);
    CountPrefixedAppend(body + v, [" quit"], ViolationPrefix);
    CountPrefixedAppend(body, v, ViolationPrefix);
    if v != [] {
      PrefixValue(ViolationPrefix, action);
      CountPrefixedCons(v[0], [], ViolationPrefix);
      assert v == [v[0]] + [];
      assert body + v + [" quit"] == body + ([v[0]] + [" quit"]);
      ValueAfterAppend(body, [v[0]] + [" quit"], ViolationPrefix);
      ValueAfterCons(v[0], [" quit"], ViolationPrefix);
    }
  }

  /** None of the three fixed lines is a sticky entry or a violation action. */
  lemma HeadNotPrefixed(s: Setting, p: string)
    requires p == MacPrefix || p == ViolationPrefix
    ensures CountPrefixed(Head(s), p) == 0
  {
    var h := Head(s);
    DiffersAt(p, h[0], 0);
    DiffersAt(p, h[1], 15);
    if p == MacPrefix {
      DiffersAt(p, h[2], 17);
    } else {
      DiffersAt(p, h[2], 15);
    }
  }

  /**
   * Whatever list the address field reads back as is pinned exactly, in order, right after
   * the three head lines, and nothing else is pinned. Together with
   * `Commands.CommaItemsOfJoin` (addresses typed as `a,b,c` read back as `[a, b, c]`) this
   * says that the typed addresses are the pinned ones.
   */
  lemma ListedMacsPinned(s: Setting, macs: seq<string>)
    requires CommaItems(s.macs) == macs
    ensures CountPrefixed(Script(s), MacPrefix) == |macs|
    ensures forall k :: 0 <= k < |macs| ==> Script(s)[3 + k] == MacPrefix + macs[k] + " sticky"
  {
    StickyCount(s);
  }

  /** With the address field left empty no address is pinned. */
  lemma NoMacsNoSticky(s: Setting)
    requires s.macs == ""
    ensures CountPrefixed(Script(s), MacPrefix) == 0
  {
    StickyCount(s);
  }

  /** Re-saving a stored setting unchanged gives back the same row. */
  lemma ResaveSetting(s: Setting)
    requires IsTrimmed(s.port) && s.port != "" && IsTrimmed(s.maxMacs) && ParsesInRange(s.maxMacs, 1, 128)
    requires IsTrimmed(s.macs) && s.action in Actions
    ensures Validate(EditForm(s)) == Accepted(s)
  {
    TrimOfTrimmed(s.port);
    TrimOfTrimmed(s.maxMacs);
    TrimOfTrimmed(s.macs);
  }
}
