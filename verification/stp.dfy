/**
 * The STP panel: global settings (STP on/off, mode, bridge priority) and a table of ports
 * (name, port priority, edge flag, enabled flag). Port priorities are checked to be a
 * multiple of 16 from 0 to 240; the bridge priority is copied into the script unchecked.
 */
module Stp {
  import opened Text
  import opened Store
  import opened Commands

  datatype Port = Port(name: string, priority: string, edge: string, status: string)

  /** The global area: the "启用STP" check box, the mode combo and the bridge-priority field. */
  datatype Settings = Settings(enabled: bool, mode: string, bridgePriority: string)

  const Modes: seq<string> := ["STP", "RSTP", "MSTP"]
  const Yes: string := "是"
  const No: string := "否"
  const On: string := "启用"
  const Off: string := "禁用"

  /** The panel as first shown: STP on, mode STP, bridge priority 32768. */
  const InitialSettings: Settings := Settings(true, "STP", "32768")

  const DemoPorts: seq<Port> := [
    Port("GigabitEthernet0/0/1", "128", Yes, On),
    Port("GigabitEthernet0/0/2", "128", No, On),
    Port("GigabitEthernet0/0/3", "128", No, Off)
  ]

  const MissingName: string := "端口名不能为空"
  const BadPriority: string := "端口优先级需为0~240之间16的倍数"

  datatype PortForm = PortForm(name: string, priority: string, edge: string, status: string)

  /** The new-port dialog: priority 128, and both combos on their second item. */
  const NewPortForm: PortForm := PortForm("", "128", No, Off)

  /** The edit dialog picks the first combo item only for exactly "是" / "启用". */
  function EditPortForm(p: Port): (f: PortForm)
    ensures f.name == p.name && f.priority == p.priority
    ensures f.edge == Yes <==> p.edge == Yes
    ensures f.edge in [Yes, No] && f.status in [On, Off]
    ensures f.status == On <==> p.status == On
  {
    PortForm(p.name, p.priority, if p.edge == Yes then Yes else No, if p.status == On then On else Off)
  }

  /** A port priority the dialog accepts (its range test uses Java's `%`, which agrees with Dafny's on `0..240`). */
  predicate PriorityOk(n: int) {
    0 <= n <= 240 && n % 16 == 0
  }

  /** The accepted priorities are exactly the sixteen multiples 0, 16, ..., 240. */
  lemma PriorityValues(n: int)
    ensures PriorityOk(n) <==> exists k :: 0 <= k < 16 && n == 16 * k
  {
    if PriorityOk(n) {
      var k := n / 16;
      assert n == 16 * k;
    }
  }

  function ValidatePort(f: PortForm): (r: Checked<Port>)
    ensures r.Accepted? <==> Trim(f.name) != "" && ParseInt(Trim(f.priority)).Some? && PriorityOk(ParseInt(Trim(f.priority)).value)
    ensures r.Accepted? ==> r.row == Port(Trim(f.name), Trim(f.priority), f.edge, f.status)
    ensures r.Refused? ==> r.warning == if Trim(f.name) == "" then MissingName else BadPriority
  {
    var name := Trim(f.name);
    var priority := Trim(f.priority);
    if name == "" then Refused(MissingName)
    else if ParseInt(priority).None? || !PriorityOk(ParseInt(priority).value) then Refused(BadPriority)
    else Accepted(Port(name, priority, f.edge, f.status))
  }

  /** One port's interface block. */
  function PortBlock(p: Port): (r: seq<string>)
    ensures |r| == 5
    ensures r[0] == "interface " + p.name && r[1] == " stp port priority " + p.priority
    ensures r[2] == (if p.edge == Yes then " stp edged-port enable" else " stp edged-port disable")
    ensures r[3] == (if p.status == On then " stp enable" else " stp disable")
    ensures r[4] == " quit"
  {
    ["interface " + p.name, " stp port priority " + p.priority,
     if p.edge == Yes then " stp edged-port enable" else " stp edged-port disable",
     if p.status == On then " stp enable" else " stp disable",
     " quit"]
  }

  function PortBlocks(ports: seq<Port>): (r: seq<string>)
    ensures |r| == 5 * |ports|
  {
    if |ports| == 0 then []
    else
      PortBlock(ports[0]) + PortBlocks(ports[1..])
  }

  /** Line `j` of port `i`'s block is line `5 * i + j` of the blocks: every port, in table order. */
  lemma {:induction false} PortBlocksAt(ports: seq<Port>, i: nat, j: nat)
    requires i < |ports| && j < 5
    ensures PortBlocks(ports)[5 * i + j] == PortBlock(ports[i])[j]
    decreases |ports|
  {
    if i > 0 {
      PortBlocksAt(ports[1..], i - 1, j);
      assert 5 * i + j == 5 + (5 * (i - 1) + j);
    }
  }

  /** The mode line, `stp mode` and the mode in lower case; a mode outside the combo's list emits none. */
  function ModeLines(mode: string): (r: seq<string>)
    ensures |r| <= 1
    ensures r != [] <==> mode in Modes
    ensures mode == "STP" <==> r == ["stp mode stp"]
    ensures mode == "RSTP" <==> r == ["stp mode rstp"]
    ensures mode == "MSTP" <==> r == ["stp mode mstp"]
  {
    if mode == "STP" then ["stp mode stp"]
    else if mode == "RSTP" then ["stp mode rstp"]
    else if mode == "MSTP" then ["stp mode mstp"]
    else []
  }

  /** The global lines written when STP is on: the switch-on line, the mode line and the bridge priority. */
  function GlobalLines(s: Settings): (r: seq<string>)
    ensures |r| == 2 + |ModeLines(s.mode)| && r[0] == "stp enable"
    ensures r[|r| - 1] == "stp priority " + Trim(s.bridgePriority)
    ensures r[1..|r| - 1] == ModeLines(s.mode)
  {
    Between("stp enable", ModeLines(s.mode), "stp priority " + Trim(s.bridgePriority));
    ["stp enable"] + ModeLines(s.mode) + ["stp priority " + Trim(s.bridgePriority)]
  }

  /** The lines between a first and a last line are the middle part. */
  lemma Between(first: string, middle: seq<string>, last: string)
    ensures ([first] + middle + [last])[1..|middle| + 1] == middle
  {
    assert forall k :: 0 <= k < |middle| ==> ([first] + middle + [last])[k + 1] == middle[k];
  }

  /** The preview; the bridge priority is the trimmed field text. */
  function Script(s: Settings, ports: seq<Port>): (r: seq<string>)
    ensures !s.enabled ==> r == ["undo stp enable"]
    ensures s.enabled ==> |r| == 2 + |ModeLines(s.mode)| + 5 * |ports| && r[0] == "stp enable"
    ensures s.enabled && s.mode in Modes ==> r[1] == ModeLines(s.mode)[0]
    ensures s.enabled ==> r[1 + |ModeLines(s.mode)|] == "stp priority " + Trim(s.bridgePriority)
  {
    if !s.enabled then ["undo stp enable"] else GlobalLines(s) + PortBlocks(ports)
  }

  /** With STP on, the preview is exactly the global lines followed by exactly the port blocks. */
  lemma ScriptLayout(s: Settings, ports: seq<Port>)
    requires s.enabled
    ensures Script(s, ports)[..2 + |ModeLines(s.mode)|] == GlobalLines(s)
    ensures Script(s, ports)[2 + |ModeLines(s.mode)|..] == PortBlocks(ports)
  {
    var g := GlobalLines(s);
    assert Script(s, ports) == g + PortBlocks(ports);
    assert (g + PortBlocks(ports))[..|g|] == g;
    assert (g + PortBlocks(ports))[|g|..] == PortBlocks(ports);
  }

  /** With STP on, port `i`'s block sits right after the global lines, and nothing is dropped. */
  lemma PortBlockPosition(s: Settings, ports: seq<Port>, i: nat, j: nat)
    requires s.enabled && i < |ports| && j < 5
    ensures Script(s, ports)[2 + |ModeLines(s.mode)| + 5 * i + j] == PortBlock(ports[i])[j]
  {
    PortBlocksAt(ports, i, j);
  }

  /** The edge flag controls `stp edged-port enable` and the status controls `stp enable`, for every port. */
  lemma PortFlags(s: Settings, ports: seq<Port>, i: nat)
    requires s.enabled && i < |ports|
    ensures var base := 2 + |ModeLines(s.mode)| + 5 * i;
      (Script(s, ports)[base + 2] == " stp edged-port enable" <==> ports[i].edge == Yes)
      && (Script(s, ports)[base + 3] == " stp enable" <==> ports[i].status == On)
  {
    PortBlockPosition(s, ports, i, 2);
    PortBlockPosition(s, ports, i, 3);
    BlockFlags(ports[i]);
  }

  /** Within one block, the third line follows the edge flag and the fourth the status. */
  lemma BlockFlags(p: Port)
    ensures PortBlock(p)[2] == " stp edged-port enable" <==> p.edge == Yes
    ensures PortBlock(p)[3] == " stp enable" <==> p.status == On
  {
    assert |" stp edged-port disable"| != |" stp edged-port enable"|;
    assert |" stp disable"| != |" stp enable"|;
  }

  /** One `interface` view per port when STP is on; none when it is off. */
  lemma InterfaceCount(s: Settings, ports: seq<Port>)
    ensures CountPrefixed(Script(s, ports), "interface ") == if s.enabled then |ports| else 0
  {
    if !s.enabled {
      DiffersAt("interface ", "undo stp enable", 0);
    } else {
      GlobalLinesNoInterface(s);
      HeadThenBlocks(GlobalLines(s), ports);
    }
  }

  /** None of the global lines opens an interface view. */
  lemma GlobalLinesNoInterface(s: Settings)
    ensures CountPrefixed(GlobalLines(s), "interface ") == 0
  {
    var m := ModeLines(s.mode);
    var last := "stp priority " + Trim(s.bridgePriority);
    NotInterface("stp enable");
    ModeLineNotInterface(s.mode);
    assert last[0] == 's';
    NotInterface(last);
    CountPrefixedAppend(["stp enable"] + m, [last], "interface ");
    CountPrefixedAppend(["stp enable"], m, "interface ");
  }

  lemma ModeLineNotInterface(mode: string)
    ensures forall k :: 0 <= k < |ModeLines(mode)| ==> !("interface " <= ModeLines(mode)[k])
  {
    if mode in Modes {
      NotInterface(ModeLines(mode)[0]);
    }
  }

  /** A line starting with `s` does not open an interface view. */
  lemma NotInterface(line: string)
    requires |line| > 0 && line[0] == 's'
    ensures !("interface " <= line)
  {
    DiffersAt("interface ", line, 0);
  }

  /** Lines without an interface view, then the port blocks: one view per port. */
  lemma HeadThenBlocks(head: seq<string>, ports: seq<Port>)
    requires CountPrefixed(head, "interface ") == 0
    ensures CountPrefixed(head + PortBlocks(ports), "interface ") == |ports|
  {
    CountPrefixedAppend(head, PortBlocks(ports), "interface ");
    BlocksInterfaceCount(ports);
  }

  lemma {:induction false} BlocksInterfaceCount(ports: seq<Port>)
    ensures CountPrefixed(PortBlocks(ports), "interface ") == |ports|
    decreases |ports|
  {
    if |ports| > 0 {
      var b := PortBlock(ports[0]);
      assert PortBlocks(ports) == b + PortBlocks(ports[1..]);
      CountPrefixedAppend(b, PortBlocks(ports[1..]), "interface ");
      BlockInterfaceCount(ports[0]);
      BlocksInterfaceCount(ports[1..]);
    }
  }

  lemma BlockInterfaceCount(p: Port)
    ensures CountPrefixed(PortBlock(p), "interface ") == 1
  {
    var b := PortBlock(p);
    forall k | 1 <= k < 5 ensures !("interface " <= b[k]) {
      DiffersAt("interface ", b[k], 0);
    }
    PrefixValue("interface ", p.name);
    CountPrefixedCons(b[0], b[1..], "interface ");
    assert b == [b[0]] + b[1..];
  }

  /** Re-saving a stored port unchanged gives back the same row, for the two flag values the combos offer. */
  lemma ResavePort(p: Port)
    requires IsTrimmed(p.name) && p.name != "" && IsTrimmed(p.priority)
    requires ParseInt(p.priority).Some? && PriorityOk(ParseInt(p.priority).value)
    requires p.edge in [Yes, No] && p.status in [On, Off]
    ensures ValidatePort(EditPortForm(p)) == Accepted(p)
  {
    TrimOfTrimmed(p.name);
    TrimOfTrimmed(p.priority);
  }

  /** A port whose stored flags are not among the combo items is re-saved as a disabled, non-edge port. */
  lemma ResaveUnknownFlags(p: Port)
    requires p.edge != Yes && p.status != On
    ensures EditPortForm(p).edge == No && EditPortForm(p).status == Off
  {
  }
}
