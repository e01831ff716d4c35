/**
 * The device panel: a table of managed switches (name, address, model, management
 * protocol, status) with a keyword search that selects the first row in which any cell
 * contains the keyword, ignoring case.
 */
module Device {
  import opened Optional
  import opened Text
  import opened Store

  datatype Device = Device(name: string, address: string, model: string, management: string, status: string)

  const Managements: seq<string> := ["SSH", "Telnet"]
  const Statuses: seq<string> := ["在线", "离线"]

  const Demo: seq<Device> := [
    Device("核心交换机", "192.168.1.1", "S5735", "SSH", "在线"),
    Device("汇聚交换机1", "192.168.1.2", "S5720", "Telnet", "离线"),
    Device("接入交换机A", "192.168.1.101", "S2700", "SSH", "在线")
  ]

  const MissingFields: string := "请填写完整信息"
  const NotFoundMessage: string := "未找到相关设备"

  datatype Form = Form(name: string, address: string, model: string, management: string, status: string)

  const NewForm: Form := Form("", "", "", "SSH", "在线")

  function EditForm(d: Device): (f: Form)
    ensures f.management in Managements && f.status in Statuses
    ensures d.management in Managements && d.status in Statuses ==>
      f == Form(d.name, d.address, d.model, d.management, d.status)
  {
    Form(d.name, d.address, d.model, Combo(Managements, d.management), Combo(Statuses, d.status))
  }

  /** The OK button: name, address and model are required. */
  function Validate(f: Form): (r: Checked<Device>)
    ensures r.Accepted? <==> Trim(f.name) != "" && Trim(f.address) != "" && Trim(f.model) != ""
    ensures r.Accepted? ==> r.row == Device(Trim(f.name), Trim(f.address), Trim(f.model), f.management, f.status)
    ensures r.Refused? ==> r.warning == MissingFields
  {
    var name := Trim(f.name);
    var address := Trim(f.address);
    var model := Trim(f.model);
    if name == "" || address == "" || model == "" then Refused(MissingFields)
    else Accepted(Device(name, address, model, f.management, f.status))
  }

  /** The five cells of a row, in column order. */
  function Cells(d: Device): (r: seq<string>)
    ensures |r| == 5
  {
    [d.name, d.address, d.model, d.management, d.status]
  }

  /** Some cell of the row contains the keyword, both lower-cased. */
  predicate Matches(d: Device, keyword: string) {
    exists j | 0 <= j < 5 :: Contains(Lower(Cells(d)[j]), Lower(keyword))
  }

  /** Reference definition: the lowest-numbered matching row at or after `from`. */
  function FirstMatch(t: seq<Device>, keyword: string, from: nat): (r: Option<nat>)
    requires from <= |t|
    ensures r.Some? ==> from <= r.value < |t| && Matches(t[r.value], keyword)
    ensures r.Some? ==> forall i :: from <= i < r.value ==> !Matches(t[i], keyword)
    ensures r.None? <==> forall i :: from <= i < |t| ==> !Matches(t[i], keyword)
    decreases |t| - from
  {
    if from == |t| then None
    else if Matches(t[from], keyword) then Some(from)
    else FirstMatch(t, keyword, from + 1)
  }

  /** What the search button does: clear the selection, select a row, or report that nothing matched. */
  datatype Outcome = Cleared | Selected(row: nat) | NotFound

  /** `indexOf`-style scan for `sub` in `s`. */
  method Find(s: string, sub: string) returns (found: bool)
    ensures found <==> Contains(s, sub)
  {
    if |sub| > |s| {
      return false;
    }
    var i := 0;
    while i <= |s| - |sub|
      invariant 0 <= i <= |s| - |sub| + 1
      invariant forall k :: 0 <= k < i ==> !OccursAt(s, sub, k)
    {
      if s[i..i + |sub|] == sub {
        assert OccursAt(s, sub, i);
        return true;
      }
      i := i + 1;
    }
    return false;
  }

  /** The row test of the search: the first cell that contains the keyword stops the scan. */
  method RowMatches(d: Device, keyword: string) returns (m: bool)
    ensures m <==> Matches(d, keyword)
  {
    var cells := Cells(d);
    var needle := Lower(keyword);
    var j := 0;
    m := false;
    while j < |cells| && !m
      invariant 0 <= j <= |cells|
      invariant m ==> Matches(d, keyword)
      invariant !m ==> forall k :: 0 <= k < j ==> !Contains(Lower(cells[k]), needle)
    {
      m := Find(Lower(cells[j]), needle);
      j := j + 1;
    }
  }

  /**
   * The search button: a blank keyword clears the selection without searching; otherwise the
   * rows are scanned in order and the first match is selected.
   */
  method Search(t: seq<Device>, keyword: string) returns (r: Outcome)
    ensures Trim(keyword) == "" <==> r == Cleared
    ensures Trim(keyword) != "" ==> (r.Selected? <==> FirstMatch(t, Trim(keyword), 0).Some?)
    ensures r.Selected? ==> FirstMatch(t, Trim(keyword), 0) == Some(r.row)
    ensures r.NotFound? <==> Trim(keyword) != "" && forall i :: 0 <= i < |t| ==> !Matches(t[i], Trim(keyword))
  {
    var kw := Trim(keyword);
    if kw == "" {
      return Cleared;
    }
    var i := 0;
    while i < |t|
      invariant 0 <= i <= |t|
      invariant FirstMatch(t, kw, 0) == FirstMatch(t, kw, i)
    {
      var m := RowMatches(t[i], kw);
      if m {
        return Selected(i);
      }
      i := i + 1;
    }
    return NotFound;
  }

  /** The table selection after a search: cleared, moved to the match, or left as it was. */
  function SelectionAfter(sel: Option<nat>, r: Outcome): (s: Option<nat>)
    ensures r.Cleared? ==> s.None?
    ensures r.Selected? ==> s == Some(r.row)
    ensures r.NotFound? ==> s == sel
  {
    match r
    case Cleared => None
    case Selected(i) => Some(i)
    case NotFound => sel
  }

  /** The search does not depend on the letter case of the keyword. */
  lemma MatchIgnoresCase(d: Device, keyword: string)
    ensures Matches(d, Lower(keyword)) <==> Matches(d, keyword)
  {
    LowerIdempotent(keyword);
  }

  /** A row whose cell equals the keyword, up to letter case, is always found. */
  lemma ExactCellMatches(d: Device, keyword: string, j: nat)
    requires j < 5 && Lower(Cells(d)[j]) == Lower(keyword)
    ensures Matches(d, keyword)
  {
    var s := Lower(Cells(d)[j]);
    assert OccursAt(s, Lower(keyword), 0) by {
      assert s[0..|s|] == s;
    }
  }

  /** Adding a device after the first match does not move the search result. */
  lemma AppendKeepsFirstMatch(t: seq<Device>, d: Device, keyword: string)
    requires FirstMatch(t, keyword, 0).Some?
    ensures FirstMatch(Append(t, d), keyword, 0) == FirstMatch(t, keyword, 0)
  {
    var i := FirstMatch(t, keyword, 0).value;
    FirstMatchPrefix(t, Append(t, d), keyword, 0, i);
  }

  lemma {:induction false} FirstMatchPrefix(t: seq<Device>, u: seq<Device>, keyword: string, from: nat, i: nat)
    requires from <= i < |t| <= |u| && t == u[..|t|]
    requires Matches(t[i], keyword) && forall k :: from <= k < i ==> !Matches(t[k], keyword)
    ensures FirstMatch(u, keyword, from) == Some(i) == FirstMatch(t, keyword, from)
    decreases i - from
  {
    assert t[from] == u[from];
    if from < i {
      FirstMatchPrefix(t, u, keyword, from + 1, i);
    }
  }

  /** Re-saving a stored device unchanged gives back the same row. */
  lemma ResaveDevice(d: Device)
    requires IsTrimmed(d.name) && d.name != "" && IsTrimmed(d.address) && d.address != ""
    requires IsTrimmed(d.model) && d.model != "" && d.management in Managements && d.status in Statuses
    ensures Validate(EditForm(d)) == Accepted(d)
  {
    TrimOfTrimmed(d.name);
    TrimOfTrimmed(d.address);
    TrimOfTrimmed(d.model);
  }
}
