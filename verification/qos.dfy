/**
 * The QoS panel: a table of traffic policies (name, description, interface) and one shared
 * rule table. As in the ACL panel, the rules are not kept per policy: selecting a policy
 * clears them and only the first policy reloads the demo rules. The preview emits a
 * `traffic policy` with a classifier/behavior block per rule, then binds the policy to the
 * interface inbound.
 */
module Qos {
  import opened Optional
  import opened Text
  import opened Store
  import opened Commands

  datatype Policy = Policy(name: string, description: string, iface: string)

  datatype Rule = Rule(id: string, matchType: string, matchValue: string, action: string, parameter: string, note: string)

  const MatchTypes: seq<string> := ["协议", "源地址", "目的地址", "端口"]
  const RuleActions: seq<string> := ["限速", "优先级", "丢弃"]

  const DemoPolicies: seq<Policy> := [
    Policy("limit_web", "限制HTTP带宽", "GigabitEthernet0/0/1"),
    Policy("voice_priority", "语音优先", "GigabitEthernet0/0/2")
  ]
  const DemoRules: seq<Rule> := [
    Rule("10", "协议", "tcp/80", "限速", "1000kbit", "限制HTTP"),
    Rule("20", "源地址", "192.168.1.0/24", "优先级", "7", "办公优先")
  ]

  const MissingPolicyFields: string := "请填写策略名称和接口"
  const MissingRuleFields: string := "请填写序号和匹配内容"
  const BadId: string := "序号须为1~9999的数字"
  const NoSelection: string := "请先选择QoS策略"

  datatype PolicyForm = PolicyForm(name: string, description: string, iface: string)
  datatype RuleForm = RuleForm(id: string, matchType: string, matchValue: string, action: string, parameter: string, note: string)

  function EditRuleForm(r: Rule): (f: RuleForm)
    ensures f.matchType in MatchTypes && f.action in RuleActions
    ensures r.matchType in MatchTypes && r.action in RuleActions ==>
      f == RuleForm(r.id, r.matchType, r.matchValue, r.action, r.parameter, r.note)
  {
    RuleForm(r.id, Combo(MatchTypes, r.matchType), r.matchValue, Combo(RuleActions, r.action), r.parameter, r.note)
  }

  /** The policy dialog's OK button: name and interface must be non-blank. */
  function ValidatePolicy(f: PolicyForm): (r: Checked<Policy>)
    ensures r.Accepted? <==> Trim(f.name) != "" && Trim(f.iface) != ""
    ensures r.Accepted? ==> r.row == Policy(Trim(f.name), Trim(f.description), Trim(f.iface))
    ensures r.Refused? ==> r.warning == MissingPolicyFields
  {
    var name := Trim(f.name);
    var iface := Trim(f.iface);
    if name == "" || iface == "" then Refused(MissingPolicyFields)
    else Accepted(Policy(name, Trim(f.description), iface))
  }

  /** The rule dialog's OK button: number and match value must be filled in, the number 1..9999. */
  function ValidateRule(f: RuleForm): (r: Checked<Rule>)
    ensures r.Accepted? <==> Trim(f.matchValue) != "" && ParsesInRange(Trim(f.id), 1, 9999)
    ensures r.Accepted? ==> r.row == Rule(Trim(f.id), f.matchType, Trim(f.matchValue), f.action, Trim(f.parameter), Trim(f.note))
    ensures r.Refused? && (Trim(f.id) == "" || Trim(f.matchValue) == "") ==> r.warning == MissingRuleFields
    ensures r.Refused? && Trim(f.id) != "" && Trim(f.matchValue) != "" ==> r.warning == BadId
  {
    var id := Trim(f.id);
    var value := Trim(f.matchValue);
    if id == "" || value == "" then Refused(MissingRuleFields)
    else if !ParsesInRange(id, 1, 9999) then Refused(BadId)
    else Accepted(Rule(id, f.matchType, value, f.action, Trim(f.parameter), Trim(f.note)))
  }

  datatype Panel = Panel(policies: seq<Policy>, rules: seq<Rule>, selected: Option<nat>)

  const Initial: Panel := Panel(DemoPolicies, DemoRules, None)

  /** Selecting a policy row reloads the rule table: the demo rules for the first row only. */
  function SelectPolicy(p: Panel, sel: Option<nat>): (q: Panel)
    requires ValidSelection(p.policies, sel)
    ensures q.policies == p.policies && q.selected == sel
    ensures q.rules == if sel == Some(0) then DemoRules else []
  {
    Panel(p.policies, if sel == Some(0) then DemoRules else [], sel)
  }

  /**
   * The delete-policy button with the confirmation answer: the selected policy row is
   * removed and the selection cleared; the shared rule table is not touched. Without a
   * selection, or when the user declines, nothing changes.
   */
  function DeletePolicy(p: Panel, confirmed: bool): (q: Panel)
    requires ValidSelection(p.policies, p.selected)
    ensures q.rules == p.rules
    ensures ValidSelection(q.policies, q.selected)
    ensures p.selected.None? || !confirmed ==> q == p
    ensures p.selected.Some? && confirmed ==>
      var i := p.selected.value;
      q.selected.None? && q.policies == p.policies[..i] + p.policies[i + 1..]
  {
    if p.selected.Some? && confirmed then Panel(Delete(p.policies, p.selected, true), p.rules, None)
    else p
  }

  /** The delete-rule button: the selected rule row is removed when the user confirms. */
  function DeleteRule(p: Panel, ruleSel: Option<nat>, confirmed: bool): (q: Panel)
    requires ValidSelection(p.rules, ruleSel)
    ensures q.policies == p.policies && q.selected == p.selected
    ensures ruleSel.None? || !confirmed ==> q.rules == p.rules
    ensures ruleSel.Some? && confirmed ==> q.rules == p.rules[..ruleSel.value] + p.rules[ruleSel.value + 1..]
  {
    p.(rules := Delete(p.rules, ruleSel, confirmed))
  }

  /** After a confirmed delete the preview asks for a selection again. */
  lemma PreviewAfterDelete(p: Panel)
    requires p.selected.Some? && p.selected.value < |p.policies|
    ensures Preview(DeletePolicy(p, true)) == Prompt(NoSelection)
  {
  }

  /** The `if-match` clause of the classifier; an unknown match type adds nothing. */
  function MatchClause(matchType: string, value: string): (r: string)
    ensures matchType !in MatchTypes <==> r == ""
    ensures matchType == "协议" ==> r == "if-match protocol " + value
    ensures matchType == "源地址" ==> r == "if-match src-ip " + value
    ensures matchType == "目的地址" ==> r == "if-match dst-ip " + value
    ensures matchType == "端口" ==> r == "if-match dport " + value
  {
    if matchType == "协议" then "if-match protocol " + value
    else if matchType == "源地址" then "if-match src-ip " + value
    else if matchType == "目的地址" then "if-match dst-ip " + value
    else if matchType == "端口" then "if-match dport " + value
    else ""
  }

  /** The behaviour's action line; an unknown action emits no line. */
  function ActionLines(action: string, parameter: string): (r: seq<string>)
    ensures |r| <= 1
    ensures r == [] <==> action !in RuleActions
    ensures |r| == 1 ==> "  " <= r[0]
    ensures action == "限速" ==> r == ["  car cir " + parameter]
    ensures action == "优先级" ==> r == ["  priority " + parameter]
    ensures action == "丢弃" ==> r == ["  discard"]
  {
    if action == "限速" then ["  car cir " + parameter]
    else if action == "优先级" then ["  priority " + parameter]
    else if action == "丢弃" then ["  discard"]
    else []
  }

  /**
   * One rule's classifier and behavior block, closed by ` quit`: the action line, if the
   * action is known, comes right after the behavior, and the remark `  // <note>` right
   * before the closing ` quit` exactly when there is a note.
   */
  function RuleBlock(r: Rule): (lines: seq<string>)
    ensures 3 <= |lines| <= 5
    ensures |lines| == 3 + |ActionLines(r.action, r.parameter)| + (if r.note == "" then 0 else 1)
    ensures lines[0] == " classifier c" + r.id + " " + MatchClause(r.matchType, r.matchValue)
    ensures lines[1] == " behavior b" + r.id
    ensures ActionLines(r.action, r.parameter) != [] ==> lines[2] == ActionLines(r.action, r.parameter)[0]
    ensures r.note != "" ==> lines[|lines| - 2] == "  // " + r.note
    ensures lines[|lines| - 1] == " quit"
  {
    [" classifier c" + r.id + " " + MatchClause(r.matchType, r.matchValue), " behavior b" + r.id]
    + ActionLines(r.action, r.parameter)
    + When(r.note != "", "  // " + r.note)
    + [" quit"]
  }

  /** The rule blocks one after another, in table order; together as long as all the blocks. */
  function RuleBlocks(rules: seq<Rule>): (r: seq<string>)
    ensures |r| == Offset(rules, |rules|)
    ensures 3 * |rules| <= |r| <= 5 * |rules|
  {
    if |rules| == 0 then [] else RuleBlock(rules[0]) + RuleBlocks(rules[1..])
  }

  /** Where rule `i`'s block starts among the blocks: the total length of the blocks before it. */
  function Offset(rules: seq<Rule>, i: nat): nat
    requires i <= |rules|
  {
    Start(RuleBlock, rules, i)
  }

  /** Each rule's block starts where the previous one ends: no gap, no overlap. */
  lemma OffsetStep(rules: seq<Rule>, i: nat)
    requires i < |rules|
    ensures Offset(rules, i + 1) == Offset(rules, i) + |RuleBlock(rules[i])|
  {
    StartStep(RuleBlock, rules, i);
  }

  /** Line `j` of rule `i`'s block is line `Offset(rules, i) + j` of the blocks: every rule, in order. */
  lemma RuleBlocksAt(rules: seq<Rule>, i: nat, j: nat)
    requires i < |rules| && j < |RuleBlock(rules[i])|
    ensures Offset(rules, i) + j < |RuleBlocks(rules)|
    ensures RuleBlocks(rules)[Offset(rules, i) + j] == RuleBlock(rules[i])[j]
  {
    RuleBlocksJoin(rules);
    JoinAt(RuleBlock, rules, i, j);
  }

  lemma {:induction false} RuleBlocksJoin(rules: seq<Rule>)
    ensures RuleBlocks(rules) == Join(RuleBlock, rules)
    decreases |rules|
  {
    if |rules| > 0 {
      RuleBlocksJoin(rules[1..]);
    }
  }

  /** The blocks `block(x)` for the items `xs`, one after another. */
  function Join<T>(block: T -> seq<string>, xs: seq<T>): seq<string> {
    if |xs| == 0 then [] else block(xs[0]) + Join(block, xs[1..])
  }

  /** Where item `i`'s block starts in `Join(block, xs)`. */
  function Start<T>(block: T -> seq<string>, xs: seq<T>, i: nat): nat
    requires i <= |xs|
  {
    if i == 0 then 0 else |block(xs[0])| + Start(block, xs[1..], i - 1)
  }

  /** Item `i`'s block follows item `i - 1`'s directly. */
  lemma {:induction false} StartStep<T>(block: T -> seq<string>, xs: seq<T>, i: nat)
    requires i < |xs|
    ensures Start(block, xs, i + 1) == Start(block, xs, i) + |block(xs[i])|
    decreases i
  {
    if i > 0 {
      assert xs[1..][i - 1] == xs[i];
      StartStep(block, xs[1..], i - 1);
    }
  }

  lemma {:induction false} JoinAt<T>(block: T -> seq<string>, xs: seq<T>, i: nat, j: nat)
    requires i < |xs| && j < |block(xs[i])|
    ensures Start(block, xs, i) + j < |Join(block, xs)|
    ensures Join(block, xs)[Start(block, xs, i) + j] == block(xs[i])[j]
    decreases i
  {
    if i > 0 {
      assert xs[1..][i - 1] == xs[i];
      JoinAt(block, xs[1..], i - 1, j);
    }
  }

  /** The closing lines that bind the policy to its interface in the inbound direction. */
  function Binding(p: Policy): seq<string> {
    [" quit", "interface " + p.iface, " traffic-policy " + p.name + " inbound", " quit"]
  }

  /**
   * The policy's script: the header, its description when it has one, the rule blocks, then
   * the policy's ` quit` and the binding to the interface in the inbound direction.
   */
  function Script(p: Policy, rules: seq<Rule>): (r: seq<string>)
    ensures |r| >= 5 && r[0] == "traffic policy " + p.name
    ensures p.description != "" ==> r[1] == " description " + p.description
    ensures r[|r| - 4] == " quit" && r[|r| - 3] == "interface " + p.iface
    ensures r[|r| - 2] == " traffic-policy " + p.name + " inbound"
    ensures r[|r| - 1] == " quit"
    ensures |r| == 1 + |When(p.description != "", " description " + p.description)| + |RuleBlocks(rules)| + 4
    ensures r[1 + |When(p.description != "", " description " + p.description)|..|r| - 4] == RuleBlocks(rules)
  {
    ["traffic policy " + p.name] + When(p.description != "", " description " + p.description) + RuleBlocks(rules) + Binding(p)
  }

  /** Rule `i`'s block sits in the script after the header and the description, in table order. */
  lemma RulePosition(p: Policy, rules: seq<Rule>, i: nat, j: nat)
    requires i < |rules| && j < |RuleBlock(rules[i])|
    ensures var k := 1 + |When(p.description != "", " description " + p.description)| + Offset(rules, i) + j;
      k < |Script(p, rules)| - 4 && Script(p, rules)[k] == RuleBlock(rules[i])[j]
  {
    var r := Script(p, rules);
    RuleBlocksAt(rules, i, j);
    SliceAt(r, 1 + |When(p.description != "", " description " + p.description)|, |r| - 4, RuleBlocks(rules), Offset(rules, i) + j);
  }

  /** Line `k` of a slice is line `lo + k` of the whole. */
  lemma SliceAt(whole: seq<string>, lo: nat, hi: nat, part: seq<string>, k: nat)
    requires lo <= hi <= |whole| && whole[lo..hi] == part && k < |part|
    ensures lo + k < hi && whole[lo + k] == part[k]
  {
    assert whole[lo..hi][k] == whole[lo + k];
  }

  function Preview(p: Panel): (r: Output)
    requires ValidSelection(p.policies, p.selected)
    ensures p.selected.None? <==> r == Prompt(NoSelection)
    ensures p.selected.Some? ==> r == Lines(Script(p.policies[p.selected.value], p.rules))
  {
    if p.selected.None? then Prompt(NoSelection) else Lines(Script(p.policies[p.selected.value], p.rules))
  }

  // ---------------------------------------------------------------------------
  // Counting blocks
  // ---------------------------------------------------------------------------

  /** Each rule block holds exactly one `behavior`, one `classifier` and one ` quit` line. */
  lemma BlockCounts(r: Rule)
    ensures CountPrefixed(RuleBlock(r), " behavior b") == 1
    ensures CountPrefixed(RuleBlock(r), " classifier c") == 1
    ensures CountPrefixed(RuleBlock(r), " quit") == 1
  {
    var head := [" classifier c" + r.id + " " + MatchClause(r.matchType, r.matchValue), " behavior b" + r.id];
    var act := ActionLines(r.action, r.parameter);
    var note := When(r.note != "", "  // " + r.note);
    HeadCounts(r);
    MiddleCounts(act, note);
    QuitCounts();
    CountFourParts(head, act, note, " behavior b");
    CountFourParts(head, act, note, " classifier c");
    CountFourParts(head, act, note, " quit");
  }

  /** A block's count splits over its head, its action line, its note and its closing `quit`. */
  lemma CountFourParts(head: seq<string>, act: seq<string>, note: seq<string>, p: string)
    ensures CountPrefixed(head + act + note + [" quit"], p)
      == CountPrefixed(head, p) + CountPrefixed(act, p) + CountPrefixed(note, p) + CountPrefixed([" quit"], p)
  {
    CountPrefixedAppend(head + act + note, [" quit"], p);
    CountPrefixedAppend(head + act, note, p);
    CountPrefixedAppend(head, act, p);
  }

  lemma QuitCounts()
    ensures CountPrefixed([" quit"], " behavior b") == 0
    ensures CountPrefixed([" quit"], " classifier c") == 0
    ensures CountPrefixed([" quit"], " quit") == 1
  {
    DiffersAt(" behavior b", " quit", 1);
    DiffersAt(" classifier c", " quit", 1);
  }

  lemma HeadCounts(r: Rule)
    ensures var head := [" classifier c" + r.id + " " + MatchClause(r.matchType, r.matchValue), " behavior b" + r.id];
      CountPrefixed(head, " behavior b") == 1 && CountPrefixed(head, " classifier c") == 1 && CountPrefixed(head, " quit") == 0
  {
    ClassifierLine(r.id + " ", MatchClause(r.matchType, r.matchValue));
    PrefixValue(" behavior b", r.id);
    PairCounts(" classifier c" + r.id + " " + MatchClause(r.matchType, r.matchValue), " behavior b" + r.id);
  }

  lemma ClassifierLine(a: string, b: string)
    ensures " classifier c" <= " classifier c" + a + b
  {
    assert " classifier c" + a + b == " classifier c" + (a + b);
    PrefixValue(" classifier c", a + b);
  }

  /** A classifier line followed by a behavior line: one of each, and no `quit`. */
  lemma PairCounts(c: string, b: string)
    requires " classifier c" <= c && " behavior b" <= b
    ensures CountPrefixed([c, b], " behavior b") == 1 && CountPrefixed([c, b], " classifier c") == 1
    ensures CountPrefixed([c, b], " quit") == 0
  {
    DiffersAt(" behavior b", c, 1);
    DiffersAt(" classifier c", b, 1);
    DiffersAt(" quit", c, 1);
    DiffersAt(" quit", b, 1);
    assert [c, b][1..] == [b];
  }

  /** Action and remark lines start with two spaces, so they match none of the one-space commands. */
  lemma MiddleCounts(act: seq<string>, note: seq<string>)
    requires |act| <= 1 && (|act| == 1 ==> "  " <= act[0])
    requires |note| <= 1 && (|note| == 1 ==> "  " <= note[0])
    ensures CountPrefixed(act, " behavior b") == 0 && CountPrefixed(note, " behavior b") == 0
    ensures CountPrefixed(act, " classifier c") == 0 && CountPrefixed(note, " classifier c") == 0
    ensures CountPrefixed(act, " quit") == 0 && CountPrefixed(note, " quit") == 0
  {
    if |act| == 1 {
      DiffersAt(" behavior b", act[0], 1);
      DiffersAt(" classifier c", act[0], 1);
      DiffersAt(" quit", act[0], 1);
    }
    if |note| == 1 {
      DiffersAt(" behavior b", note[0], 1);
      DiffersAt(" classifier c", note[0], 1);
      DiffersAt(" quit", note[0], 1);
    }
  }

  /** Over all rules: one `behavior`, one `classifier` and one ` quit` per rule. */
  lemma {:induction false} BlocksCount(rules: seq<Rule>)
    ensures CountPrefixed(RuleBlocks(rules), " behavior b") == |rules|
    ensures CountPrefixed(RuleBlocks(rules), " classifier c") == |rules|
    ensures CountPrefixed(RuleBlocks(rules), " quit") == |rules|
    decreases |rules|
  {
    if |rules| > 0 {
      BlockCounts(rules[0]);
      BlocksCount(rules[1..]);
      CountPrefixedAppend(RuleBlock(rules[0]), RuleBlocks(rules[1..]), " behavior b");
      CountPrefixedAppend(RuleBlock(rules[0]), RuleBlocks(rules[1..]), " classifier c");
      CountPrefixedAppend(RuleBlock(rules[0]), RuleBlocks(rules[1..]), " quit");
    }
  }

  /**
   * The script for a policy holds one behavior per rule, and its ` quit` lines close every
   * rule block, the policy itself and the interface view: two more than there are rules.
   */
  lemma ScriptCounts(p: Policy, rules: seq<Rule>)
    ensures CountPrefixed(Script(p, rules), " behavior b") == |rules|
    ensures CountPrefixed(Script(p, rules), " quit") == |rules| + 2
  {
    var head := ["traffic policy " + p.name];
    var desc := When(p.description != "", " description " + p.description);
    var body := RuleBlocks(rules);
    assert Script(p, rules) == head + desc + body + Binding(p);
    BlocksCount(rules);
    FrameCounts(p);
    CountPrefixedAppend(head + desc + body, Binding(p), " behavior b");
    CountPrefixedAppend(head + desc, body, " behavior b");
    CountPrefixedAppend(head, desc, " behavior b");
    CountPrefixedAppend(head + desc + body, Binding(p), " quit");
    CountPrefixedAppend(head + desc, body, " quit");
    CountPrefixedAppend(head, desc, " quit");
  }

  lemma FrameCounts(p: Policy)
    ensures CountPrefixed(["traffic policy " + p.name], " behavior b") == 0
    ensures CountPrefixed(["traffic policy " + p.name], " quit") == 0
    ensures CountPrefixed(When(p.description != "", " description " + p.description), " behavior b") == 0
    ensures CountPrefixed(When(p.description != "", " description " + p.description), " quit") == 0
    ensures CountPrefixed(Binding(p), " behavior b") == 0
    ensures CountPrefixed(Binding(p), " quit") == 2
  {
    DiffersAt(" behavior b", "traffic policy " + p.name, 0);
    DiffersAt(" quit", "traffic policy " + p.name, 0);
    if p.description != "" {
      DiffersAt(" behavior b", " description " + p.description, 1);
      DiffersAt(" quit", " description " + p.description, 1);
    }
    BindingCounts(p);
  }

  lemma BindingCounts(p: Policy)
    ensures CountPrefixed(Binding(p), " behavior b") == 0
    ensures CountPrefixed(Binding(p), " quit") == 2
  {
    var b := Binding(p);
    var i := "interface " + p.iface;
    var t := " traffic-policy " + p.name + " inbound";
    DiffersAt(" behavior b", " quit", 1);
    DiffersAt(" behavior b", i, 0);
    DiffersAt(" behavior b", t, 1);
    DiffersAt(" quit", i, 0);
    DiffersAt(" quit", t, 1);
    assert b == [" quit"] + ([i] + ([t] + [" quit"]));
    CountPrefixedCons(" quit", [i] + ([t] + [" quit"]), " behavior b");
    CountPrefixedCons(i, [t] + [" quit"], " behavior b");
    CountPrefixedCons(t, [" quit"], " behavior b");
    CountPrefixedCons(" quit", [i] + ([t] + [" quit"]), " quit");
    CountPrefixedCons(i, [t] + [" quit"], " quit");
    CountPrefixedCons(t, [" quit"], " quit");
  }

  /** The policy is applied to its own interface, under its own name. */
  lemma BindingNamesPolicy(p: Policy, rules: seq<Rule>)
    ensures ValueAfter(Script(p, rules), "interface ") == Some(p.iface)
  {
    var head := ["traffic policy " + p.name];
    var desc := When(p.description != "", " description " + p.description);
    var body := RuleBlocks(rules);
    assert Script(p, rules) == (head + desc + body) + Binding(p);
    NoInterfaceBefore(p, rules);
    ValueAfterAppend(head + desc + body, Binding(p), "interface ");
    var i := "interface " + p.iface;
    DiffersAt("interface ", " quit", 0);
    PrefixValue("interface ", p.iface);
    assert Binding(p) == [" quit"] + [i, " traffic-policy " + p.name + " inbound", " quit"];
    ValueAfterCons(" quit", [i, " traffic-policy " + p.name + " inbound", " quit"], "interface ");
    ValueAfterCons(i, [" traffic-policy " + p.name + " inbound", " quit"], "interface ");
  }

  lemma NoInterfaceBefore(p: Policy, rules: seq<Rule>)
    ensures ValueAfter(["traffic policy " + p.name] + When(p.description != "", " description " + p.description) + RuleBlocks(rules), "interface ").None?
  {
    var lines := ["traffic policy " + p.name] + When(p.description != "", " description " + p.description) + RuleBlocks(rules);
    forall k | 0 <= k < |lines| ensures !("interface " <= lines[k]) {
      if k == 0 {
        DiffersAt("interface ", lines[0], 0);
      } else {
        BlocksIndented(p, rules, k);
        DiffersAt("interface ", lines[k], 0);
      }
    }
  }

  /** Every line after the policy header is indented. */
  lemma BlocksIndented(p: Policy, rules: seq<Rule>, k: nat)
    requires 0 < k < |["traffic policy " + p.name] + When(p.description != "", " description " + p.description) + RuleBlocks(rules)|
    ensures var lines := ["traffic policy " + p.name] + When(p.description != "", " description " + p.description) + RuleBlocks(rules);
      |lines[k]| > 0 && lines[k][0] == ' '
  {
    var desc := When(p.description != "", " description " + p.description);
    if k <= |desc| {
    } else {
      RuleBlocksIndented(rules, k - 1 - |desc|);
    }
  }

  lemma {:induction false} RuleBlocksIndented(rules: seq<Rule>, k: nat)
    requires k < |RuleBlocks(rules)|
    ensures |RuleBlocks(rules)[k]| > 0 && RuleBlocks(rules)[k][0] == ' '
    decreases |rules|
  {
    assert |rules| > 0;
    var b := RuleBlock(rules[0]);
    assert RuleBlocks(rules) == b + RuleBlocks(rules[1..]);
    if k < |b| {
      BlockIndented(rules[0], k);
    } else {
      RuleBlocksIndented(rules[1..], k - |b|);
    }
  }

  lemma BlockIndented(r: Rule, k: nat)
    requires k < |RuleBlock(r)|
    ensures |RuleBlock(r)[k]| > 0 && RuleBlock(r)[k][0] == ' '
  {
  }

  /** Selecting any policy but the first previews it without a single classifier/behavior pair. */
  lemma OtherPoliciesHaveNoRules(p: Panel, i: nat)
    requires 0 < i < |p.policies|
    ensures Preview(SelectPolicy(p, Some(i))).Lines?
    ensures CountPrefixed(Preview(SelectPolicy(p, Some(i))).lines, " behavior b") == 0
  {
    ScriptCounts(p.policies[i], []);
  }

  /** The remark line appears in a rule's block exactly when the rule has a note. */
  lemma NoteIffNote(r: Rule)
    ensures CountPrefixed(RuleBlock(r), "  // ") == if r.note == "" then 0 else 1
  {
    var head := [" classifier c" + r.id + " " + MatchClause(r.matchType, r.matchValue), " behavior b" + r.id];
    var act := ActionLines(r.action, r.parameter);
    var note := When(r.note != "", "  // " + r.note);
    DiffersAt("  // ", head[0], 1);
    DiffersAt("  // ", head[1], 1);
    assert head == [head[0]] + [head[1]];
    CountPrefixedCons(head[0], [head[1]], "  // ");
    CountPrefixedCons(head[1], [], "  // ");
    if act != [] {
      DiffersAt("  // ", act[0], 2);
      CountPrefixedCons(act[0], [], "  // ");
    }
    if r.note != "" {
      PrefixValue("  // ", r.note);
      CountPrefixedCons(note[0], [], "  // ");
    }
    DiffersAt("  // ", " quit", 1);
    CountPrefixedCons(" quit", [], "  // ");
    CountFourParts(head, act, note, "  // ");
  }

  /** The second line is the description exactly when the policy has one. */
  lemma DescriptionIffDescription(p: Policy, rules: seq<Rule>)
    ensures p.description != "" <==> " description " <= Script(p, rules)[1]
  {
    if p.description == "" {
      SecondLineNoDescription(p, rules);
      FirstAfterHeader(rules, p);
      DiffersAt(" description ", Script(p, rules)[1], 1);
    } else {
      PrefixValue(" description ", p.description);
    }
  }

  lemma SecondLineNoDescription(p: Policy, rules: seq<Rule>)
    requires p.description == ""
    ensures Script(p, rules)[1] == (RuleBlocks(rules) + Binding(p))[0]
  {
    SecondOfFour("traffic policy " + p.name, When(false, " description "), RuleBlocks(rules), Binding(p));
  }

  lemma SecondOfFour(h: string, w: seq<string>, a: seq<string>, b: seq<string>)
    requires w == [] && |b| > 0
    ensures ([h] + w + a + b)[1] == (a + b)[0]
  {
  }

  /** Without a description, the header is followed by a classifier line or by the policy's ` quit`. */
  lemma FirstAfterHeader(rules: seq<Rule>, p: Policy)
    ensures var rest := RuleBlocks(rules) + Binding(p); |rest| > 0 && |rest[0]| > 1 && rest[0][1] != 'd'
  {
    if rules != [] {
      assert (RuleBlocks(rules) + Binding(p))[0] == RuleBlock(rules[0])[0];
    }
  }
}
