/**
 * The port-mirroring panel: rows of (session number, type, source port, direction,
 * monitor port, description). The preview emits the three `mirroring-group` commands of
 * the selected session.
 */
module Mirror {
  import opened Optional
  import opened Text
  import opened Store
  import opened Commands

  datatype Session = Session(session: string, kind: string, source: string, direction: string, monitor: string, description: string)

  const Kinds: seq<string> := ["本地", "远程"]
  const Directions: seq<string> := ["入", "出", "入+出"]

  const Demo: seq<Session> := [
    Session("1", "本地", "GigabitEthernet0/0/1", "入+出", "GigabitEthernet0/0/10", "办公区监控"),
    Session("2", "远程", "GigabitEthernet0/0/2", "入", "GigabitEthernet0/0/20", "远程镜像")
  ]

  const MissingFields: string := "请填写会话号、源端口和目的端口"
  const BadSession: string := "会话号须为1~6的数字！"
  const NoSelection: string := "请先选择端口镜像配置条目"

  datatype Form = Form(session: string, kind: string, source: string, direction: string, monitor: string, description: string)

  const NewForm: Form := Form("", "本地", "", "入", "", "")

  function EditForm(m: Session): (f: Form)
    ensures f.kind in Kinds && f.direction in Directions
    ensures m.kind in Kinds && m.direction in Directions ==>
      f == Form(m.session, m.kind, m.source, m.direction, m.monitor, m.description)
  {
    Form(m.session, Combo(Kinds, m.kind), m.source, Combo(Directions, m.direction), m.monitor, m.description)
  }

  /** The OK button: session, source and monitor port are required, and the session must be 1..6. */
  function Validate(f: Form): (r: Checked<Session>)
    ensures r.Accepted? <==> Trim(f.source) != "" && Trim(f.monitor) != "" && ParsesInRange(Trim(f.session), 1, 6)
    ensures r.Accepted? ==> r.row == Session(Trim(f.session), f.kind, Trim(f.source), f.direction, Trim(f.monitor), Trim(f.description))
    ensures r.Refused? ==>
      r.warning == if Trim(f.session) == "" || Trim(f.source) == "" || Trim(f.monitor) == "" then MissingFields else BadSession
  {
    var session := Trim(f.session);
    var source := Trim(f.source);
    var monitor := Trim(f.monitor);
    if session == "" || source == "" || monitor == "" then Refused(MissingFields)
    else if !ParsesInRange(session, 1, 6) then Refused(BadSession)
    else Accepted(Session(session, f.kind, source, f.direction, monitor, Trim(f.description)))
  }

  /** The group type: local mirroring for "local" or "本地", remote-source for anything else. */
  function KindToken(kind: string): (token: string)
    ensures token == "local" <==> kind == "local" || kind == "本地"
    ensures token != "local" ==> token == "remote-source"
  {
    if kind == "local" || kind == "本地" then "local" else "remote-source"
  }

  /** The mirrored direction; anything but "入" or "出" mirrors both ways. */
  function DirectionToken(direction: string): (token: string)
    ensures token == "inbound" <==> direction == "入"
    ensures token == "outbound" <==> direction == "出"
    ensures token == "both" <==> direction != "入" && direction != "出"
  {
    if direction == "入" then "inbound" else if direction == "出" then "outbound" else "both"
  }

  /** The command prefix shared by all three `mirroring-group` lines. */
  function Group(m: Session): string {
    "mirroring-group " + m.session + " " + KindToken(m.kind)
  }

  function Script(m: Session): (r: seq<string>)
    ensures |r| == if m.description == "" then 4 else 5
    ensures r[0] == Group(m) && r[|r| - 1] == "quit"
    ensures r[|r| - 3] == Group(m) + " source " + m.source + " " + DirectionToken(m.direction)
    ensures r[|r| - 2] == Group(m) + " monitor-port " + m.monitor
    ensures m.description != "" <==> r[1] == " description " + m.description
  {
    [Group(m)] + When(m.description != "", " description " + m.description)
    + [Group(m) + " source " + m.source + " " + DirectionToken(m.direction),
       Group(m) + " monitor-port " + m.monitor,
       "quit"]
  }

  function Preview(t: seq<Session>, sel: Option<nat>): (r: Output)
    requires ValidSelection(t, sel)
    ensures sel.None? <==> r == Prompt(NoSelection)
    ensures sel.Some? ==> r == Lines(Script(t[sel.value]))
  {
    if sel.None? then Prompt(NoSelection) else Lines(Script(t[sel.value]))
  }

  /** Exactly three lines configure the group, all with the same session number and type. */
  lemma SameGroupThrice(m: Session)
    ensures CountPrefixed(Script(m), Group(m)) == 3
    ensures CountPrefixed(Script(m), "mirroring-group ") == 3
  {
    var g := Group(m);
    var desc := When(m.description != "", " description " + m.description);
    var l2 := g + " source " + m.source + " " + DirectionToken(m.direction);
    var l3 := g + " monitor-port " + m.monitor;
    if m.description != "" {
      DiffersAt(g, desc[0], 0);
      DiffersAt("mirroring-group ", desc[0], 0);
    }
    DiffersAt(g, "quit", 0);
    DiffersAt("mirroring-group ", "quit", 0);
    ShapeCount(g, desc, l2, l3, g);
    ShapeCount(g, desc, l2, l3, "mirroring-group ");
  }

  /** A header, an optional non-matching description, two matching lines and `quit`: three matches. */
  lemma ShapeCount(g: string, desc: seq<string>, l2: string, l3: string, p: string)
    requires p <= g && p <= l2 && p <= l3 && !(p <= "quit")
    requires |desc| <= 1 && (|desc| == 1 ==> !(p <= desc[0]))
    ensures CountPrefixed([g] + desc + [l2, l3, "quit"], p) == 3
  {
    var tail := [l2, l3, "quit"];
    assert [g] + desc + tail == [g] + (desc + tail);
    CountPrefixedCons(g, desc + tail, p);
    CountPrefixedAppend(desc, tail, p);
    DescCount(desc, p);
    TailCount(l2, l3, p);
  }

  lemma DescCount(desc: seq<string>, p: string)
    requires |desc| <= 1 && (|desc| == 1 ==> !(p <= desc[0]))
    ensures CountPrefixed(desc, p) == 0
  {
  }

  lemma TailCount(l2: string, l3: string, p: string)
    requires p <= l2 && p <= l3 && !(p <= "quit")
    ensures CountPrefixed([l2, l3, "quit"], p) == 2
  {
    assert [l2, l3, "quit"] == [l2] + ([l3] + ["quit"]);
    CountPrefixedCons(l2, [l3] + ["quit"], p);
    CountPrefixedCons(l3, ["quit"], p);
    CountPrefixedCons("quit", [], p);
  }

  /** The first `source` command names the session's source port and its mirrored direction. */
  lemma SourceLine(m: Session)
    ensures ValueAfter(Script(m), Group(m) + " source ") == Some(m.source + " " + DirectionToken(m.direction))
  {
    var g := Group(m);
    var p := g + " source ";
    var line := g + " source " + m.source + " " + DirectionToken(m.direction);
    assert line == p + (m.source + " " + DirectionToken(m.direction));
    PrefixValue(p, m.source + " " + DirectionToken(m.direction));
    var desc := When(m.description != "", " description " + m.description);
    var rest := [g + " monitor-port " + m.monitor, "quit"];
    assert Script(m) == ([g] + desc) + ([line] + rest);
    if m.description != "" {
      DiffersAt(p, desc[0], 0);
    }
    assert ValueAfter([g] + desc, p).None?;
    ValueAfterAppend([g] + desc, [line] + rest, p);
    ValueAfterCons(line, rest, p);
  }

  /** Re-saving a stored session unchanged gives back the same row. */
  lemma ResaveSession(m: Session)
    requires IsTrimmed(m.session) && ParsesInRange(m.session, 1, 6)
    requires IsTrimmed(m.source) && m.source != "" && IsTrimmed(m.monitor) && m.monitor != ""
    requires IsTrimmed(m.description) && m.kind in Kinds && m.direction in Directions
    ensures Validate(EditForm(m)) == Accepted(m)
  {
    TrimOfTrimmed(m.session);
    TrimOfTrimmed(m.source);
    TrimOfTrimmed(m.monitor);
    TrimOfTrimmed(m.description);
  }
}
