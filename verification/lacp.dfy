/**
 * The link-aggregation panel: rows of (group number, mode, member ports, load-balance
 * method, description). The preview emits an `Eth-Trunk` interface block for the selected
 * group, then one block per member port named in the comma-separated member field.
 */
module Lacp {
  import opened Optional
  import opened Text
  import opened Store
  import opened Commands

  datatype Group = Group(id: string, mode: string, members: string, loadBalance: string, description: string)

  const Modes: seq<string> := ["LACP", "静态"]
  const LoadBalances: seq<string> := ["src-mac", "dst-mac", "src-dst-mac", "src-ip", "dst-ip", "src-dst-ip"]

  const Demo: seq<Group> := [
    Group("1", "LACP", "GigabitEthernet0/0/1, GigabitEthernet0/0/2", "src-dst-mac", "汇聚上行链路"),
    Group("2", "静态", "GigabitEthernet0/0/3, GigabitEthernet0/0/4", "src-mac", "服务器专用")
  ]

  const MissingFields: string := "聚合组号和成员端口不能为空！"
  const BadId: string := "聚合组号应为1~64的数字！"
  const NoSelection: string := "请先选择聚合组条目"

  /** The dialog's fields; `mode` and `loadBalance` are combo selections. */
  datatype Form = Form(id: string, mode: string, members: string, loadBalance: string, description: string)

  /** The new-group dialog: both combos on their first item. */
  const NewForm: Form := Form("", "LACP", "", "src-mac", "")

  function EditForm(g: Group): (f: Form)
    ensures f.mode in Modes && f.loadBalance in LoadBalances
    ensures g.mode in Modes && g.loadBalance in LoadBalances ==>
      f == Form(g.id, g.mode, g.members, g.loadBalance, g.description)
  {
    Form(g.id, Combo(Modes, g.mode), g.members, Combo(LoadBalances, g.loadBalance), g.description)
  }

  /** The OK button: number and members must be filled in, and the number must be 1..64. */
  function Validate(f: Form): (r: Checked<Group>)
    ensures r.Accepted? <==> Trim(f.members) != "" && ParsesInRange(Trim(f.id), 1, 64)
    ensures r.Accepted? ==> r.row == Group(Trim(f.id), f.mode, Trim(f.members), f.loadBalance, Trim(f.description))
    ensures r.Refused? ==> r.warning == if Trim(f.id) == "" || Trim(f.members) == "" then MissingFields else BadId
  {
    var id := Trim(f.id);
    var members := Trim(f.members);
    if id == "" || members == "" then Refused(MissingFields)
    else if !ParsesInRange(id, 1, 64) then Refused(BadId)
    else Accepted(Group(id, f.mode, members, f.loadBalance, Trim(f.description)))
  }

  /** The mode line: `mode lacp` for exactly "LACP", manual aggregation otherwise. */
  function ModeLine(mode: string): (line: string)
    ensures line == " mode lacp" <==> mode == "LACP"
  {
    if mode == "LACP" then " mode lacp" else " mode manual"
  }

  /** The aggregate interface itself. */
  function TrunkBlock(g: Group): (r: seq<string>)
    ensures |r| == if g.description == "" then 4 else 5
    ensures r[0] == "interface Eth-Trunk" + g.id && r[|r| - 1] == " quit"
    ensures r[|r| - 3] == ModeLine(g.mode) && r[|r| - 2] == " load-balance " + g.loadBalance
    ensures g.description != "" <==> r[1] == " description " + g.description
  {
    ["interface Eth-Trunk" + g.id] + When(g.description != "", " description " + g.description)
    + [ModeLine(g.mode), " load-balance " + g.loadBalance, " quit"]
  }

  /** One member port joined to trunk `id`. */
  function MemberBlock(port: string, id: string): (r: seq<string>)
    ensures |r| == 3
    ensures r[0] == "interface " + port && r[1] == " eth-trunk " + id && r[2] == " quit"
  {
    ["interface " + port, " eth-trunk " + id, " quit"]
  }

  function MemberBlocks(ports: seq<string>, id: string): (r: seq<string>)
    ensures |r| == 3 * |ports|
    ensures forall i, j :: 0 <= i < |ports| && 0 <= j < 3 ==> r[3 * i + j] == MemberBlock(ports[i], id)[j]
  {
    if |ports| == 0 then [] else MemberBlock(ports[0], id) + MemberBlocks(ports[1..], id)
  }

  /** The preview of one group: the trunk block, then the members in the order they were typed. */
  function Script(g: Group): (r: seq<string>)
    ensures |r| == |TrunkBlock(g)| + 3 * |CommaItems(g.members)|
    ensures r[..|TrunkBlock(g)|] == TrunkBlock(g)
  {
    TrunkBlock(g) + MemberBlocks(CommaItems(g.members), g.id)
  }

  function Preview(t: seq<Group>, sel: Option<nat>): (r: Output)
    requires ValidSelection(t, sel)
    ensures sel.None? <==> r == Prompt(NoSelection)
    ensures sel.Some? ==> r == Lines(Script(t[sel.value]))
  {
    if sel.None? then Prompt(NoSelection) else Lines(Script(t[sel.value]))
  }

  /** The `k`-th member named in the field gets the `k`-th member block, joined to this trunk. */
  lemma MemberInOrder(g: Group, k: nat)
    requires k < |CommaItems(g.members)|
    ensures Script(g)[|TrunkBlock(g)| + 3 * k] == "interface " + CommaItems(g.members)[k]
    ensures Script(g)[|TrunkBlock(g)| + 3 * k + 1] == " eth-trunk " + g.id
  {
    var ms := CommaItems(g.members);
    assert MemberBlocks(ms, g.id)[3 * k] == MemberBlock(ms[k], g.id)[0];
    assert MemberBlocks(ms, g.id)[3 * k + 1] == MemberBlock(ms[k], g.id)[1];
  }

  /** There is one ` eth-trunk` line per non-empty member name, and none elsewhere. */
  lemma MemberCount(g: Group)
    ensures CountPrefixed(Script(g), " eth-trunk ") == |CommaItems(g.members)|
  {
    TrunkHasNoMember(g);
    MembersCount(CommaItems(g.members), g.id);
    CountPrefixedAppend(TrunkBlock(g), MemberBlocks(CommaItems(g.members), g.id), " eth-trunk ");
  }

  lemma TrunkHasNoMember(g: Group)
    ensures CountPrefixed(TrunkBlock(g), " eth-trunk ") == 0
  {
    var b := TrunkBlock(g);
    forall k | 0 <= k < |b| ensures !(" eth-trunk " <= b[k]) {
      if k == 0 {
        DiffersAt(" eth-trunk ", b[k], 0);
      } else {
        DiffersAt(" eth-trunk ", b[k], 1);
      }
    }
  }

  lemma {:induction false} MembersCount(ports: seq<string>, id: string)
    ensures CountPrefixed(MemberBlocks(ports, id), " eth-trunk ") == |ports|
    decreases |ports|
  {
    if |ports| > 0 {
      var b := MemberBlock(ports[0], id);
      assert MemberBlocks(ports, id) == b + MemberBlocks(ports[1..], id);
      CountPrefixedAppend(b, MemberBlocks(ports[1..], id), " eth-trunk ");
      MemberBlockCount(ports[0], id);
      MembersCount(ports[1..], id);
    }
  }

  lemma MemberBlockCount(port: string, id: string)
    ensures CountPrefixed(MemberBlock(port, id), " eth-trunk ") == 1
  {
    var b := MemberBlock(port, id);
    DiffersAt(" eth-trunk ", b[0], 0);
    DiffersAt(" eth-trunk ", b[2], 1);
    PrefixValue(" eth-trunk ", id);
    assert b == [b[0]] + ([b[1]] + [b[2]]);
    CountPrefixedCons(b[0], [b[1]] + [b[2]], " eth-trunk ");
    CountPrefixedCons(b[1], [b[2]], " eth-trunk ");
    CountPrefixedCons(b[2], [], " eth-trunk ");
  }

  /** The first `interface` line of the preview configures the group's Eth-Trunk. */
  lemma TrunkNamed(g: Group)
    ensures ValueAfter(Script(g), "interface ") == Some("Eth-Trunk" + g.id)
  {
    var b := TrunkBlock(g);
    assert b[0] == "interface " + ("Eth-Trunk" + g.id);
    PrefixValue("interface ", "Eth-Trunk" + g.id);
    assert Script(g) == [b[0]] + (b[1..] + MemberBlocks(CommaItems(g.members), g.id));
    ValueAfterCons(b[0], b[1..] + MemberBlocks(CommaItems(g.members), g.id), "interface ");
  }

  /**
   * Members typed as a comma list of port names come out as member blocks for exactly those
   * ports, in order.
   */
  lemma TypedMembers(g: Group, ports: seq<string>)
    requires |ports| >= 1
    requires forall k :: 0 <= k < |ports| ==> ports[k] != "" && IsTrimmed(ports[k]) && ',' !in ports[k]
    requires g.members == JoinWith(ports, ',')
    ensures |Script(g)| == |TrunkBlock(g)| + 3 * |ports|
    ensures forall k :: 0 <= k < |ports| ==> Script(g)[|TrunkBlock(g)| + 3 * k] == "interface " + ports[k]
  {
    CommaItemsOfJoin(ports);
    forall k | 0 <= k < |ports| ensures Script(g)[|TrunkBlock(g)| + 3 * k] == "interface " + ports[k] {
      MemberInOrder(g, k);
    }
  }

  /** Re-saving a stored group unchanged gives back the same row. */
  lemma ResaveGroup(g: Group)
    requires IsTrimmed(g.id) && ParsesInRange(g.id, 1, 64)
    requires IsTrimmed(g.members) && g.members != "" && IsTrimmed(g.description)
    requires g.mode in Modes && g.loadBalance in LoadBalances
    ensures Validate(EditForm(g)) == Accepted(g)
  {
    TrimOfTrimmed(g.id);
    TrimOfTrimmed(g.members);
    TrimOfTrimmed(g.description);
  }
}
