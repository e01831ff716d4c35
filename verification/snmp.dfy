/**
 * The SNMP panel: a table of communities (name, permission, allowed source) and a table
 * of trap hosts (address, notification type, SNMP version). The preview needs no
 * selection: it emits one `snmp-agent community` line per community, then one
 * `snmp-agent target-host` line per trap host.
 */
module Snmp {
  import opened Text
  import opened Store
  import opened Commands

  datatype Community = Community(name: string, permission: string, source: string)
  datatype TrapHost = TrapHost(address: string, kind: string, version: string)

  const Permissions: seq<string> := ["RO", "RW"]
  const TrapKinds: seq<string> := ["trap", "inform"]
  const Versions: seq<string> := ["v1", "v2c", "v3"]

  /** The stored source that stands for "no restriction"; the preview leaves it out. */
  const AnySource: string := "any"

  const DemoCommunities: seq<Community> := [
    Community("public", "RO", "192.168.1.0 255.255.255.0"),
    Community("private", "RW", "any")
  ]
  const DemoTraps: seq<TrapHost> := [TrapHost("192.168.1.100", "inform", "v2c"), TrapHost("192.168.1.101", "trap", "v3")]

  const MissingCommunityFields: string := "请填写社区名称和权限"
  const MissingAddress: string := "请输入Trap服务器地址"

  datatype CommunityForm = CommunityForm(name: string, permission: string, source: string)
  datatype TrapForm = TrapForm(address: string, kind: string, version: string)

  function EditCommunityForm(c: Community): (f: CommunityForm)
    ensures f.permission in Permissions
    ensures c.permission in Permissions ==> f == CommunityForm(c.name, c.permission, c.source)
  {
    CommunityForm(c.name, Combo(Permissions, c.permission), c.source)
  }

  function EditTrapForm(t: TrapHost): (f: TrapForm)
    ensures f.kind in TrapKinds && f.version in Versions
    ensures t.kind in TrapKinds && t.version in Versions ==> f == TrapForm(t.address, t.kind, t.version)
  {
    TrapForm(t.address, Combo(TrapKinds, t.kind), Combo(Versions, t.version))
  }

  /**
   * The community dialog's OK button: name and permission must be non-empty; a blank source
   * is stored as "any", so a saved community never has an empty source.
   */
  function ValidateCommunity(f: CommunityForm): (r: Checked<Community>)
    ensures r.Accepted? <==> Trim(f.name) != "" && f.permission != ""
    ensures r.Accepted? ==> r.row.name == Trim(f.name) && r.row.permission == f.permission
    ensures r.Accepted? ==> r.row.source != "" && IsTrimmed(r.row.source)
    ensures r.Accepted? ==> (r.row.source == AnySource <==> Trim(f.source) == "" || Trim(f.source) == AnySource)
    ensures r.Accepted? && Trim(f.source) != "" ==> r.row.source == Trim(f.source)
    ensures r.Refused? ==> r.warning == MissingCommunityFields
  {
    var name := Trim(f.name);
    var source := Trim(f.source);
    if name == "" || f.permission == "" then Refused(MissingCommunityFields)
    else
      TrimOfTrimmed(AnySource);
      Accepted(Community(name, f.permission, if source == "" then AnySource else source))
  }

  /** The trap dialog's OK button: only the address is required. */
  function ValidateTrap(f: TrapForm): (r: Checked<TrapHost>)
    ensures r.Accepted? <==> Trim(f.address) != ""
    ensures r.Accepted? ==> r.row == TrapHost(Trim(f.address), f.kind, f.version)
    ensures r.Refused? ==> r.warning == MissingAddress
  {
    var address := Trim(f.address);
    if address == "" then Refused(MissingAddress) else Accepted(TrapHost(address, f.kind, f.version))
  }

  /** What every community line starts with: the permission in lower case, then the name. */
  function CommunityText(c: Community): string {
    "snmp-agent community " + Lower(c.permission) + " " + c.name
  }

  /**
   * One community: the permission in lower case, the name, and ` source <src>` exactly when
   * the source is not "any"; nothing else follows.
   */
  function CommunityLine(c: Community): (line: string)
    ensures "snmp-agent community " <= line
    ensures "snmp-agent community " + Lower(c.permission) + " " + c.name <= line
    ensures c.source != AnySource <==> |line| > |CommunityText(c)|
    ensures c.source != AnySource ==> line[|CommunityText(c)|..] == " source " + c.source
  {
    var line := CommunityText(c) + (if c.source != AnySource then " source " + c.source else "");
    assert line[..|CommunityText(c)|] == CommunityText(c);
    line
  }

  /**
   * One trap host: its address, ` params securityname public` (the security name is always
   * `public`, whatever communities exist), then the notification type and `version-<v>`
   * at the end.
   */
  function TrapLine(t: TrapHost): (line: string)
    ensures "snmp-agent target-host " <= line
    ensures "snmp-agent target-host " + t.address + " params securityname public" <= line
    ensures |line| == |"snmp-agent target-host " + t.address + " params securityname public"| + |t.kind| + |t.version| + 10
    ensures line[|line| - |t.kind| - |t.version| - 10..] == " " + t.kind + " version-" + t.version
  {
    var head := "snmp-agent target-host " + t.address + " params securityname public";
    var tail := " " + t.kind + " version-" + t.version;
    var line := head + tail;
    assert line[..|head|] == head;
    assert line[|head|..] == tail;
    line
  }

  /** The permissions the combo offers are written `ro` and `rw`. */
  lemma PermissionTokens()
    ensures Lower("RO") == "ro" && Lower("RW") == "rw"
  {
  }

  function CommunityLines(cs: seq<Community>): (r: seq<string>)
    ensures |r| == |cs|
    ensures forall i :: 0 <= i < |cs| ==> r[i] == CommunityLine(cs[i])
  {
    if |cs| == 0 then [] else [CommunityLine(cs[0])] + CommunityLines(cs[1..])
  }

  function TrapLines(ts: seq<TrapHost>): (r: seq<string>)
    ensures |r| == |ts|
    ensures forall i :: 0 <= i < |ts| ==> r[i] == TrapLine(ts[i])
  {
    if |ts| == 0 then [] else [TrapLine(ts[0])] + TrapLines(ts[1..])
  }

  /** The preview: all communities, then all trap hosts, in table order. */
  function Script(cs: seq<Community>, ts: seq<TrapHost>): (r: seq<string>)
    ensures |r| == |cs| + |ts|
    ensures forall i :: 0 <= i < |cs| ==> r[i] == CommunityLine(cs[i])
    ensures forall j :: 0 <= j < |ts| ==> r[|cs| + j] == TrapLine(ts[j])
  {
    CommunityLines(cs) + TrapLines(ts)
  }

  /** The preview holds one community line per community and one target-host line per trap host. */
  lemma ScriptCounts(cs: seq<Community>, ts: seq<TrapHost>)
    ensures CountPrefixed(Script(cs, ts), "snmp-agent community ") == |cs|
    ensures CountPrefixed(Script(cs, ts), "snmp-agent target-host ") == |ts|
  {
    CountPrefixedAppend(CommunityLines(cs), TrapLines(ts), "snmp-agent community ");
    CountPrefixedAppend(CommunityLines(cs), TrapLines(ts), "snmp-agent target-host ");
    AllPrefixed(CommunityLines(cs), "snmp-agent community ");
    AllPrefixed(TrapLines(ts), "snmp-agent target-host ");
    NoneCommunity(ts);
    NoneTarget(cs);
  }

  lemma NoneCommunity(ts: seq<TrapHost>)
    ensures CountPrefixed(TrapLines(ts), "snmp-agent community ") == 0
  {
    forall k | 0 <= k < |ts| ensures !("snmp-agent community " <= TrapLines(ts)[k]) {
      DiffersAt("snmp-agent community ", TrapLine(ts[k]), 11);
    }
  }

  lemma NoneTarget(cs: seq<Community>)
    ensures CountPrefixed(CommunityLines(cs), "snmp-agent target-host ") == 0
  {
    forall k | 0 <= k < |cs| ensures !("snmp-agent target-host " <= CommunityLines(cs)[k]) {
      DiffersAt("snmp-agent target-host ", CommunityLine(cs[k]), 11);
    }
  }

  /**
   * A community saved with a blank source field is unrestricted: its command line has no
   * `source` clause.
   */
  lemma BlankSourceIsUnrestricted(name: string, permission: string, blank: string)
    requires Trim(name) != "" && permission != "" && Trim(blank) == ""
    ensures ValidateCommunity(CommunityForm(name, permission, blank)).Accepted?
    ensures CommunityLine(ValidateCommunity(CommunityForm(name, permission, blank)).row) ==
      "snmp-agent community " + Lower(permission) + " " + Trim(name)
  {
  }

  /**
   * A community saved with a typed source other than "any" is restricted to it: its command
   * line ends with the `source` clause.
   */
  lemma TypedSourceRestricts(name: string, permission: string, source: string)
    requires Trim(name) != "" && permission != "" && Trim(source) != "" && Trim(source) != AnySource
    ensures ValidateCommunity(CommunityForm(name, permission, source)).Accepted?
    ensures CommunityLine(ValidateCommunity(CommunityForm(name, permission, source)).row) ==
      "snmp-agent community " + Lower(permission) + " " + Trim(name) + " source " + Trim(source)
  {
  }

  /** Re-saving a stored community or trap host unchanged gives back the same row. */
  lemma ResaveCommunity(c: Community)
    requires IsTrimmed(c.name) && c.name != "" && c.permission in Permissions
    requires IsTrimmed(c.source) && c.source != ""
    ensures ValidateCommunity(EditCommunityForm(c)) == Accepted(c)
  {
    TrimOfTrimmed(c.name);
    TrimOfTrimmed(c.source);
  }

  lemma ResaveTrap(t: TrapHost)
    requires IsTrimmed(t.address) && t.address != "" && t.kind in TrapKinds && t.version in Versions
    ensures ValidateTrap(EditTrapForm(t)) == Accepted(t)
  {
    TrimOfTrimmed(t.address);
  }
}
