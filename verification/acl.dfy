/**
 * The ACL panel: a table of ACLs (number, type, description) and one shared table of
 * rules. The rules are not kept per ACL: selecting an ACL clears the rule table and, for
 * the first ACL only, reloads the two demo rules. The preview emits the selected ACL's
 * header followed by one `rule` line for every row of the rule table.
 */
module Acl {
  import opened Optional
  import opened Text
  import opened Store
  import opened Commands

  datatype Group = Group(number: string, kind: string, description: string)

  datatype Rule = Rule(
    id: string, action: string, protocol: string,
    source: string, sourcePort: string,
    destination: string, destinationPort: string,
    description: string)

  const Basic: string := "基础"
  const Advanced: string := "高级"
  const Kinds: seq<string> := [Basic, Advanced]
  const Actions: seq<string> := ["permit", "deny"]
  const Protocols: seq<string> := ["ip", "tcp", "udp", "icmp"]

  /** The wildcard the rule dialog pre-fills and the preview leaves out for ports. */
  const AnyValue: string := "any"

  const DemoGroups: seq<Group> := [Group("3000", Advanced, "办公区访问控制"), Group("2000", Basic, "外部访问")]
  const DemoRules: seq<Rule> := [
    Rule("5", "permit", "tcp", "192.168.1.0 0.0.0.255", "any", "10.1.1.1", "80", "允许办公区访问Web"),
    Rule("10", "deny", "ip", "any", "any", "any", "any", "拒绝其他流量")
  ]

  const MissingNumber: string := "请填写ACL号"
  const BadNumber: string := "ACL号须为2000~3999的数字"
  const MissingId: string := "请填写序号"
  const BadId: string := "序号须为1~9999的数字"
  const NoSelection: string := "请先选择ACL条目"

  /** The ACL dialog's fields; `kind` is the combo's selection. */
  datatype GroupForm = GroupForm(number: string, kind: string, description: string)

  /** The rule dialog's fields; `action` and `protocol` are combo selections. */
  datatype RuleForm = RuleForm(
    id: string, action: string, protocol: string,
    source: string, sourcePort: string,
    destination: string, destinationPort: string,
    description: string)

  const NewGroupForm: GroupForm := GroupForm("", Basic, "")

  /** The new-rule dialog: addresses and ports pre-filled with "any". */
  const NewRuleForm: RuleForm := RuleForm("", "permit", "ip", AnyValue, AnyValue, AnyValue, AnyValue, "")

  function EditGroupForm(g: Group): (f: GroupForm)
    ensures f.kind in Kinds
    ensures g.kind in Kinds ==> f == GroupForm(g.number, g.kind, g.description)
  {
    GroupForm(g.number, Combo(Kinds, g.kind), g.description)
  }

  function EditRuleForm(r: Rule): (f: RuleForm)
    ensures f.action in Actions && f.protocol in Protocols
    ensures r.action in Actions && r.protocol in Protocols ==>
      f == RuleForm(r.id, r.action, r.protocol, r.source, r.sourcePort, r.destination, r.destinationPort, r.description)
  {
    RuleForm(r.id, Combo(Actions, r.action), Combo(Protocols, r.protocol),
      r.source, r.sourcePort, r.destination, r.destinationPort, r.description)
  }

  /** The ACL dialog's OK button: the number must be 2000..3999. */
  function ValidateGroup(f: GroupForm): (r: Checked<Group>)
    ensures r.Accepted? <==> ParsesInRange(Trim(f.number), 2000, 3999)
    ensures r.Accepted? ==> r.row == Group(Trim(f.number), f.kind, Trim(f.description))
    ensures r.Refused? ==> r.warning == if Trim(f.number) == "" then MissingNumber else BadNumber
  {
    var number := Trim(f.number);
    if number == "" then Refused(MissingNumber)
    else if !ParsesInRange(number, 2000, 3999) then Refused(BadNumber)
    else Accepted(Group(number, f.kind, Trim(f.description)))
  }

  /** The rule dialog's OK button: the sequence number must be 1..9999; every text field is trimmed. */
  function ValidateRule(f: RuleForm): (r: Checked<Rule>)
    ensures r.Accepted? <==> ParsesInRange(Trim(f.id), 1, 9999)
    ensures r.Accepted? ==> r.row == Rule(Trim(f.id), f.action, f.protocol, Trim(f.source), Trim(f.sourcePort),
      Trim(f.destination), Trim(f.destinationPort), Trim(f.description))
    ensures r.Refused? ==> r.warning == if Trim(f.id) == "" then MissingId else BadId
  {
    var id := Trim(f.id);
    if id == "" then Refused(MissingId)
    else if !ParsesInRange(id, 1, 9999) then Refused(BadId)
    else Accepted(Rule(id, f.action, f.protocol, Trim(f.source), Trim(f.sourcePort),
      Trim(f.destination), Trim(f.destinationPort), Trim(f.description)))
  }

  /** The panel: both tables and the ACL selection the rule table depends on. */
  datatype Panel = Panel(groups: seq<Group>, rules: seq<Rule>, selected: Option<nat>)

  const Initial: Panel := Panel(DemoGroups, DemoRules, None)

  /**
   * Selecting an ACL row (or clearing the selection) reloads the rule table: the demo rules
   * for the first row, nothing for any other.
   */
  function SelectGroup(p: Panel, sel: Option<nat>): (q: Panel)
    requires ValidSelection(p.groups, sel)
    ensures q.groups == p.groups && q.selected == sel
    ensures q.rules == if sel == Some(0) then DemoRules else []
  {
    Panel(p.groups, if sel == Some(0) then DemoRules else [], sel)
  }

  /**
   * The delete-ACL button with the confirmation answer: the selected ACL row is removed and
   * the selection is cleared with it; the shared rule table is not touched. Without a
   * selection, or when the user declines, nothing changes.
   */
  function DeleteGroup(p: Panel, confirmed: bool): (q: Panel)
    requires ValidSelection(p.groups, p.selected)
    ensures q.rules == p.rules
    ensures ValidSelection(q.groups, q.selected)
    ensures p.selected.None? || !confirmed ==> q == p
    ensures p.selected.Some? && confirmed ==>
      var i := p.selected.value;
      q.selected.None? && q.groups == p.groups[..i] + p.groups[i + 1..]
  {
    if p.selected.Some? && confirmed then Panel(Delete(p.groups, p.selected, true), p.rules, None)
    else p
  }

  /** The delete-rule button: the selected rule row is removed when the user confirms. */
  function DeleteRule(p: Panel, ruleSel: Option<nat>, confirmed: bool): (q: Panel)
    requires ValidSelection(p.rules, ruleSel)
    ensures q.groups == p.groups && q.selected == p.selected
    ensures ruleSel.None? || !confirmed ==> q.rules == p.rules
    ensures ruleSel.Some? && confirmed ==> q.rules == p.rules[..ruleSel.value] + p.rules[ruleSel.value + 1..]
  {
    p.(rules := Delete(p.rules, ruleSel, confirmed))
  }

  /**
   * When ACL numbers are distinct, a confirmed delete removes exactly the selected ACL: its
   * number is gone, every other ACL is still listed, and the rule table is the same.
   */
  lemma DeleteGroupRemovesOnlySelected(p: Panel)
    requires p.selected.Some? && p.selected.value < |p.groups|
    requires forall a, b :: 0 <= a < b < |p.groups| ==> p.groups[a].number != p.groups[b].number
    ensures var q := DeleteGroup(p, true);
      (forall g :: g in q.groups ==> g.number != p.groups[p.selected.value].number)
      && (forall k :: 0 <= k < |p.groups| && k != p.selected.value ==> p.groups[k] in q.groups)
      && q.rules == p.rules && |q.groups| == |p.groups| - 1
  {
    var i := p.selected.value;
    var q := DeleteGroup(p, true);
    forall g | g in q.groups ensures g.number != p.groups[i].number {
      var k :| 0 <= k < |q.groups| && q.groups[k] == g;
      if k < i {
        assert g == p.groups[k];
      } else {
        assert g == p.groups[k + 1];
      }
    }
    forall k | 0 <= k < |p.groups| && k != i ensures p.groups[k] in q.groups {
      if k < i {
        assert q.groups[k] == p.groups[k];
      } else {
        assert q.groups[k - 1] == p.groups[k];
      }
    }
  }

  /** After a confirmed delete the preview asks for a selection again. */
  lemma PreviewAfterDelete(p: Panel)
    requires p.selected.Some? && p.selected.value < |p.groups|
    ensures Preview(DeleteGroup(p, true)) == Prompt(NoSelection)
  {
  }

  /** `" source-port eq <p>"` and `" destination-port eq <p>"` are left out for the wildcard port. */
  function PortClause(keyword: string, port: string): (r: string)
    ensures port == AnyValue <==> r == ""
    ensures port != AnyValue ==> r == " " + keyword + " eq " + port
  {
    if port == AnyValue then "" else " " + keyword + " eq " + port
  }

  /** The description is appended as a `//` remark when there is one. */
  function Remark(description: string): (r: string)
    ensures description == "" <==> r == ""
    ensures description != "" ==> r == " // " + description
  {
    if description == "" then "" else " // " + description
  }

  /** What every rule line starts with: the sequence number, the action, the protocol and the source. */
  function SourceText(r: Rule): string {
    " rule " + r.id + " " + r.action + " " + r.protocol + " source " + r.source
  }

  /** The line up to the destination address: the source text, its port clause and the destination. */
  function DestinationText(r: Rule): string {
    SourceText(r) + PortClause("source-port", r.sourcePort) + " destination " + r.destination
  }

  /**
   * One rule as a single command line. Read from the left it holds the sequence number,
   * action, protocol and source; then ` source-port eq <p>` exactly when the source port is
   * not the wildcard; then the destination; then ` destination-port eq <p>` exactly when the
   * destination port is not the wildcard; and it ends with ` // <d>` exactly when there is a
   * description d.
   */
  function RuleLine(r: Rule): (line: string)
    ensures " rule " + r.id + " " + r.action + " " + r.protocol + " source " + r.source <= line
    ensures r.sourcePort != AnyValue <==> SourceText(r) + " source-port eq " + r.sourcePort <= line
    ensures DestinationText(r) <= line
    ensures r.destinationPort != AnyValue <==> DestinationText(r) + " destination-port eq " + r.destinationPort <= line
    ensures |line| == |DestinationText(r)| + |PortClause("destination-port", r.destinationPort)| + |Remark(r.description)|
    ensures r.description != "" ==> line[|line| - |r.description| - 4..] == " // " + r.description
  {
    var line := DestinationText(r) + PortClause("destination-port", r.destinationPort) + Remark(r.description);
    SourcePortIff(r);
    DestinationPortIff(r, line);
    assert DestinationText(r) <= line;
    line
  }

  /** The source-port clause follows the source exactly when the source port is not the wildcard. */
  lemma SourcePortIff(r: Rule)
    ensures var line := DestinationText(r) + PortClause("destination-port", r.destinationPort) + Remark(r.description);
      SourceText(r) <= line
      && (r.sourcePort != AnyValue <==> SourceText(r) + " source-port eq " + r.sourcePort <= line)
  {
    var clause := PortClause("source-port", r.sourcePort);
    var tail := PortClause("destination-port", r.destinationPort) + Remark(r.description);
    var rest := RestAfterSource(r.destination, tail);
    Regroup(SourceText(r), clause, " destination ", r.destination, PortClause("destination-port", r.destinationPort), Remark(r.description));
    DiffersAt(" source-port eq " + r.sourcePort, rest, 1);
    OptionalClause(SourceText(r), clause, " source-port eq " + r.sourcePort, rest);
  }

  lemma Regroup(a: string, b: string, c: string, d: string, e: string, f: string)
    ensures a + b + c + d + e + f == a + b + (c + d + (e + f))
  {
  }

  /** What follows the source port clause: the destination and everything after it. */
  function RestAfterSource(destination: string, tail: string): (rest: string)
    ensures |rest| > 1 && rest[1] == 'd'
  {
    " destination " + destination + tail
  }

  /** The destination-port clause follows the destination exactly when that port is not the wildcard. */
  lemma DestinationPortIff(r: Rule, line: string)
    requires line == DestinationText(r) + PortClause("destination-port", r.destinationPort) + Remark(r.description)
    ensures r.destinationPort != AnyValue <==> DestinationText(r) + " destination-port eq " + r.destinationPort <= line
  {
    var p := " destination-port eq " + r.destinationPort;
    var rest := Remark(r.description);
    if rest != "" {
      assert rest[1] == '/';
      DiffersAt(p, rest, 1);
    }
    OptionalClause(DestinationText(r), PortClause("destination-port", r.destinationPort), p, rest);
  }

  /**
   * A clause that is either `p` or left out, between a head and a rest that does not start
   * with `p`: the line continues the head with `p` exactly when the clause is there.
   */
  lemma OptionalClause(head: string, clause: string, p: string, rest: string)
    requires clause == p || (clause == "" && !(p <= rest))
    ensures clause == p <==> head + p <= head + clause + rest
  {
    PrefixCancel(head, p, clause + rest);
    assert head + clause + rest == head + (clause + rest);
  }

  /** A common head can be taken off both sides of a prefix test. */
  lemma PrefixCancel(head: string, p: string, s: string)
    ensures head + p <= head + s <==> p <= s
  {
    if head + p <= head + s {
      assert (head + s)[|head|..|head| + |p|] == p;
      assert s[..|p|] == (head + s)[|head|..|head| + |p|];
    }
  }

  /** The rule lines, in table order. */
  function RuleLines(rules: seq<Rule>): (r: seq<string>)
    ensures |r| == |rules|
    ensures forall i :: 0 <= i < |rules| ==> r[i] == RuleLine(rules[i])
  {
    if |rules| == 0 then [] else [RuleLine(rules[0])] + RuleLines(rules[1..])
  }

  /** The ACL header: "高级" ACLs are written as `number`, every other type as `basic`. */
  function Header(g: Group): string {
    "acl " + (if g.kind == Advanced then "number " else "basic ") + g.number
  }

  function Script(g: Group, rules: seq<Rule>): (r: seq<string>)
    ensures |r| == |rules| + (if g.description == "" then 2 else 3)
    ensures r[0] == Header(g) && r[|r| - 1] == "quit"
    ensures g.description != "" ==> r[1] == " description " + g.description
  {
    [Header(g)] + When(g.description != "", " description " + g.description) + RuleLines(rules) + ["quit"]
  }

  function Preview(p: Panel): (r: Output)
    requires ValidSelection(p.groups, p.selected)
    ensures p.selected.None? <==> r == Prompt(NoSelection)
    ensures p.selected.Some? ==> r == Lines(Script(p.groups[p.selected.value], p.rules))
  {
    if p.selected.None? then Prompt(NoSelection) else Lines(Script(p.groups[p.selected.value], p.rules))
  }

  /** Every row of the rule table becomes exactly one `rule` line, in order, after the header. */
  lemma RuleLinesInOrder(g: Group, rules: seq<Rule>, i: nat)
    requires i < |rules|
    ensures Script(g, rules)[i + (if g.description == "" then 1 else 2)] == RuleLine(rules[i])
  {
  }

  /** The number of `rule` lines equals the number of rows in the rule table. */
  lemma RuleCount(g: Group, rules: seq<Rule>)
    ensures CountPrefixed(Script(g, rules), " rule ") == |rules|
  {
    RuleLinesCount(rules);
    DescriptionNotRule(g.description);
    HeaderNotRule(g);
    CountAround(Header(g), When(g.description != "", " description " + g.description), RuleLines(rules), " rule ");
  }

  lemma DescriptionNotRule(d: string)
    ensures !(" rule " <= " description " + d)
  {
    DiffersAt(" rule ", " description " + d, 1);
  }

  lemma HeaderNotRule(g: Group)
    ensures !(" rule " <= Header(g))
  {
    DiffersAt(" rule ", Header(g), 0);
  }

  lemma RuleLinesCount(rules: seq<Rule>)
    ensures CountPrefixed(RuleLines(rules), " rule ") == |rules|
  {
    AllPrefixed(RuleLines(rules), " rule ");
  }

  /** Lines around a body that do not start with `p` do not change its count. */
  lemma CountAround(head: string, desc: seq<string>, body: seq<string>, p: string)
    requires |p| > 0 && p[0] == ' ' && !(p <= head)
    requires |desc| <= 1 && (|desc| == 1 ==> !(p <= desc[0]))
    ensures CountPrefixed([head] + desc + body + ["quit"], p) == CountPrefixed(body, p)
  {
    DiffersAt(p, "quit", 0);
    CountPrefixedAppend([head] + desc + body, ["quit"], p);
    CountPrefixedAppend([head] + desc, body, p);
    CountPrefixedAppend([head], desc, p);
  }

  /** The header names the ACL's number, as a `number` (advanced) or `basic` ACL. */
  lemma HeaderCarriesNumber(g: Group)
    ensures ValueAfter(Script(g, []), "acl ") == Some((if g.kind == Advanced then "number " else "basic ") + g.number)
  {
    var kw := if g.kind == Advanced then "number " else "basic ";
    assert Header(g) == "acl " + (kw + g.number);
    PrefixValue("acl ", kw + g.number);
    ValueAfterCons(Header(g), When(g.description != "", " description " + g.description) + ["quit"], "acl ");
  }

  /**
   * A rule saved from the new-rule dialog with only the sequence number filled in is a
   * plain `permit ip` rule from any source to any destination: both port clauses and the
   * remark are left out.
   */
  lemma DefaultRuleLine(id: string)
    requires ParsesInRange(Trim(id), 1, 9999)
    ensures ValidateRule(NewRuleForm.(id := id)).Accepted?
    ensures RuleLine(ValidateRule(NewRuleForm.(id := id)).row) ==
      " rule " + Trim(id) + " permit ip source any destination any"
  {
    DefaultRuleSaved(id);
    PlainRuleLine(Trim(id));
  }

  lemma DefaultRuleSaved(id: string)
    requires ParsesInRange(Trim(id), 1, 9999)
    ensures ValidateRule(NewRuleForm.(id := id)) == Accepted(Rule(Trim(id), "permit", "ip", "any", "any", "any", "any", ""))
  {
    TrimOfTrimmed(AnyValue);
    TrimOfTrimmed("");
  }

  lemma PlainRuleLine(id: string)
    ensures RuleLine(Rule(id, "permit", "ip", "any", "any", "any", "any", "")) ==
      " rule " + id + " permit ip source any destination any"
  {
    RuleLineOf(Rule(id, "permit", "ip", "any", "any", "any", "any", ""), "", "");
    PlainRuleGlue(" rule " + id);
  }

  lemma PlainRuleGlue(head: string)
    ensures head + " " + "permit" + " " + "ip" + " source " + "any" + " destination " + "any" + "" + ""
      == head + " permit ip source any destination any"
  {
    GlueStep(head, " ", "permit");
    GlueStep(head, " permit", " ");
    GlueStep(head, " permit ", "ip");
    GlueStep(head, " permit ip", " source ");
    GlueStep(head, " permit ip source ", "any");
    GlueStep(head, " permit ip source any", " destination ");
    GlueStep(head, " permit ip source any destination ", "any");
    GlueStep(head, " permit ip source any destination any", "");
    GlueStep(head, " permit ip source any destination any", "");
  }

  /** One step of gluing a literal tail onto a line that starts with an unknown head. */
  lemma GlueStep(head: string, a: string, b: string)
    ensures head + a + b == head + (a + b)
  {
  }

  /**
   * The first demo rule, a Web-access permit with a destination port and a remark, renders as
   * the documented line: the wildcard source port is left out.
   */
  lemma DemoRuleLine()
    ensures RuleLine(DemoRules[0]) ==
      " rule 5 permit tcp source 192.168.1.0 0.0.0.255 destination 10.1.1.1 destination-port eq 80 // 允许办公区访问Web"
  {
    DemoRuleFields();
    DemoRuleClauses();
    RuleLineOf(DemoRules[0], " destination-port eq 80", " // 允许办公区访问Web");
    DemoRuleGlue();
  }

  /** The first demo rule: TCP from the office subnet to the web server on port 80. */
  lemma DemoRuleFields()
    ensures DemoRules[0] == Rule("5", "permit", "tcp", "192.168.1.0 0.0.0.255", "any", "10.1.1.1", "80", "允许办公区访问Web")
  {
  }

  /** Its wildcard source port adds nothing, its destination port and its remark add a clause each. */
  lemma DemoRuleClauses()
    ensures PortClause("source-port", "any") == ""
    ensures PortClause("destination-port", "80") == " destination-port eq 80"
    ensures Remark("允许办公区访问Web") == " // 允许办公区访问Web"
  {
    assert " destination-port" + " eq " == " destination-port eq ";
  }

  /** The twelve pieces of the first demo rule's line, glued in three runs. */
  lemma DemoRuleGlue()
    ensures " rule " + "5" + " " + "permit" + " " + "tcp" + " source " + "192.168.1.0 0.0.0.255"
      + " destination " + "10.1.1.1" + " destination-port eq 80" + " // 允许办公区访问Web"
      == " rule 5 permit tcp source 192.168.1.0 0.0.0.255 destination 10.1.1.1 destination-port eq 80 // 允许办公区访问Web"
  {
    DemoRuleGlueSource();
    DemoRuleGlueDestination();
    DemoRuleGlueAddress();
    DemoRuleGluePort();
    DemoRuleGlueRemark();
  }

  lemma DemoRuleGlueSource()
    ensures " rule " + "5" + " " + "permit" + " " + "tcp" + " source "
      == " rule 5 permit tcp source "
  {
    assert " rule " + "5" == " rule 5";
    assert " rule 5" + " " == " rule 5 ";
    assert " rule 5 " + "permit" == " rule 5 permit";
    assert " rule 5 permit" + " " == " rule 5 permit ";
    assert " rule 5 permit " + "tcp" == " rule 5 permit tcp";
  }

  lemma DemoRuleGlueDestination()
    ensures " rule 5 permit tcp source " + "192.168.1.0 0.0.0.255" + " destination "
      == " rule 5 permit tcp source 192.168.1.0 0.0.0.255 destination "
  {
    assert " rule 5 permit tcp source " + "192.168.1.0 0.0.0.255" == " rule 5 permit tcp source 192.168.1.0 0.0.0.255";
  }

  lemma DemoRuleGlueAddress()
    ensures " rule 5 permit tcp source 192.168.1.0 0.0.0.255 destination " + "10.1.1.1"
      == " rule 5 permit tcp source 192.168.1.0 0.0.0.255 destination 10.1.1.1"
  {
  }

  lemma DemoRuleGluePort()
    ensures " rule 5 permit tcp source 192.168.1.0 0.0.0.255 destination 10.1.1.1" + " destination-port eq 80"
      == " rule 5 permit tcp source 192.168.1.0 0.0.0.255 destination 10.1.1.1 destination-port eq 80"
  {
  }

  lemma DemoRuleGlueRemark()
    ensures " rule 5 permit tcp source 192.168.1.0 0.0.0.255 destination 10.1.1.1 destination-port eq 80" + " // 允许办公区访问Web"
      == " rule 5 permit tcp source 192.168.1.0 0.0.0.255 destination 10.1.1.1 destination-port eq 80 // 允许办公区访问Web"
  {
  }

  /** A rule whose source port is the wildcard, with its destination clause and remark given. */
  lemma RuleLineOf(r: Rule, dp: string, rm: string)
    requires r.sourcePort == AnyValue
    requires PortClause("destination-port", r.destinationPort) == dp && Remark(r.description) == rm
    ensures RuleLine(r) == " rule " + r.id + " " + r.action + " " + r.protocol + " source " + r.source
      + " destination " + r.destination + dp + rm
  {
  }

  /** Selecting any ACL but the first leaves it with no rules in the preview. */
  lemma OtherGroupsHaveNoRules(p: Panel, i: nat)
    requires 0 < i < |p.groups|
    ensures Preview(SelectGroup(p, Some(i))).Lines?
    ensures CountPrefixed(Preview(SelectGroup(p, Some(i))).lines, " rule ") == 0
  {
    RuleCount(p.groups[i], []);
  }

  /**
   * Rules added while the first ACL is selected are lost when the user selects another ACL
   * and comes back: the first ACL shows the demo rules again.
   */
  lemma ReselectingFirstRestoresDemo(p: Panel, i: nat, extra: Rule)
    requires 0 < i < |p.groups|
    ensures var q := SelectGroup(p, Some(0));
      var added := q.(rules := Save(q.rules, Adding, Accepted(extra)));
      SelectGroup(SelectGroup(added, Some(i)), Some(0)).rules == DemoRules
  {
  }
}
