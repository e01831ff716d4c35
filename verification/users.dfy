/**
 * The local-user panel: rows of (user name, privilege level, password, note). The dialog
 * offers four labelled privilege levels and stores only the level's number; the preview
 * emits a `local-user` block. The note is kept in the table but never reaches the commands.
 */
module Users {
  import opened Optional
  import opened Text
  import opened Store
  import opened Commands

  datatype User = User(name: string, level: string, password: string, note: string)

  /** The level combo's items, highest privilege first. */
  const LevelLabels: seq<string> := ["15(管理员)", "3(操作员)", "2(监控员)", "1(访客)"]
  const LevelNumbers: seq<string> := ["15", "3", "2", "1"]

  const Demo: seq<User> := [User("admin", "15", "admin@123", "超级管理员"), User("netops", "3", "netops@123", "网络运维")]

  const MissingFields: string := "请填写用户名和密码"
  const NoSelection: string := "请先选择用户条目"

  /** The dialog's fields; `levelLabel` is the combo's selected item. */
  datatype Form = Form(name: string, levelLabel: string, password: string, note: string)

  const NewForm: Form := Form("", LevelLabels[0], "", "")

  /** The combo index the edit dialog selects for a stored level; unknown levels fall back to the first item. */
  function LevelIndex(level: string): (i: nat)
    ensures i < |LevelLabels|
    ensures level in LevelNumbers ==> LevelNumbers[i] == level
    ensures level !in LevelNumbers ==> i == 0
  {
    if level == "15" then 0 else if level == "3" then 1 else if level == "2" then 2 else if level == "1" then 3 else 0
  }

  function EditForm(u: User): (f: Form)
    ensures f.name == u.name && f.password == u.password && f.note == u.note
    ensures f.levelLabel in LevelLabels
  {
    Form(u.name, LevelLabels[LevelIndex(u.level)], u.password, u.note)
  }

  /**
   * The stored number for a level label, by prefix, testing 15 before 3, 2 and 1. Because
   * "15(管理员)" also starts with "1", the order matters.
   */
  function LevelNumber(item: string): (n: string)
    ensures n in LevelNumbers
    ensures "15" <= item ==> n == "15"
    ensures !("15" <= item) && "1" <= item ==> n == "1"
  {
    if "15" <= item then "15"
    else if "3" <= item then "3"
    else if "2" <= item then "2"
    else if "1" <= item then "1"
    else "15"
  }

  /** Each combo item maps back to the number in front of it. */
  lemma LabelsMapToNumbers(i: nat)
    requires i < |LevelLabels|
    ensures LevelNumber(LevelLabels[i]) == LevelNumbers[i]
  {
    if i == 0 {
      assert "15" <= LevelLabels[0];
    } else if i == 1 {
      DiffersAt("15", LevelLabels[1], 0);
      assert "3" <= LevelLabels[1];
    } else if i == 2 {
      DiffersAt("15", LevelLabels[2], 0);
      DiffersAt("3", LevelLabels[2], 0);
      assert "2" <= LevelLabels[2];
    } else {
      DiffersAt("15", LevelLabels[3], 1);
      DiffersAt("3", LevelLabels[3], 0);
      DiffersAt("2", LevelLabels[3], 0);
      assert "1" <= LevelLabels[3];
    }
  }

  /** Opening the editor and saving keeps a known level, and turns any other level into 15. */
  lemma LevelRoundTrip(level: string)
    ensures level in LevelNumbers ==> LevelNumber(LevelLabels[LevelIndex(level)]) == level
    ensures level !in LevelNumbers ==> LevelNumber(LevelLabels[LevelIndex(level)]) == "15"
  {
    LabelsMapToNumbers(LevelIndex(level));
  }

  /** The OK button: user name and password are required; the level is stored as its number. */
  function Validate(f: Form): (r: Checked<User>)
    ensures r.Accepted? <==> Trim(f.name) != "" && Trim(f.password) != ""
    ensures r.Accepted? ==> r.row == User(Trim(f.name), LevelNumber(f.levelLabel), Trim(f.password), Trim(f.note))
    ensures r.Accepted? ==> r.row.level in LevelNumbers
    ensures r.Refused? ==> r.warning == MissingFields
  {
    var name := Trim(f.name);
    var password := Trim(f.password);
    if name == "" || password == "" then Refused(MissingFields)
    else Accepted(User(name, LevelNumber(f.levelLabel), password, Trim(f.note)))
  }

  function Script(u: User): (r: seq<string>)
    ensures |r| == 5 && r[0] == "local-user " + u.name
    ensures r[1] == " password irreversible-cipher " + u.password && r[2] == " privilege level " + u.level
    ensures r[3] == " service-type ssh telnet terminal" && r[4] == " quit"
  {
    ["local-user " + u.name, " password irreversible-cipher " + u.password, " privilege level " + u.level,
     " service-type ssh telnet terminal", " quit"]
  }

  function Preview(t: seq<User>, sel: Option<nat>): (r: Output)
    requires ValidSelection(t, sel)
    ensures sel.None? <==> r == Prompt(NoSelection)
    ensures sel.Some? ==> r == Lines(Script(t[sel.value]))
  {
    if sel.None? then Prompt(NoSelection) else Lines(Script(t[sel.value]))
  }

  /** The note never influences the commands. */
  lemma NoteIgnored(u: User, note: string)
    ensures Script(u.(note := note)) == Script(u)
  {
  }

  /** The block names the user, sets the password in irreversible-cipher form, and the stored privilege level. */
  lemma ScriptCarriesUser(u: User)
    ensures ValueAfter(Script(u), "local-user ") == Some(u.name)
    ensures ValueAfter(Script(u), " password irreversible-cipher ") == Some(u.password)
    ensures ValueAfter(Script(u), " privilege level ") == Some(u.level)
  {
    var s := Script(u);
    PrefixValue("local-user ", u.name);
    PrefixValue(" password irreversible-cipher ", u.password);
    PrefixValue(" privilege level ", u.level);
    DiffersAt(" password irreversible-cipher ", s[0], 0);
    ValueAfterCons(s[0], [s[1]] + ([s[2]] + s[3..]), " password irreversible-cipher ");
    ValueAfterCons(s[1], [s[2]] + s[3..], " password irreversible-cipher ");
    assert s == [s[0]] + ([s[1]] + ([s[2]] + s[3..]));
    ValueAfterCons(s[0], [s[1]] + ([s[2]] + s[3..]), "local-user ");
    DiffersAt(" privilege level ", s[0], 0);
    DiffersAt(" privilege level ", s[1], 2);
    ValueAfterCons(s[0], [s[1]] + ([s[2]] + s[3..]), " privilege level ");
    ValueAfterCons(s[1], [s[2]] + s[3..], " privilege level ");
    ValueAfterCons(s[2], s[3..], " privilege level ");
  }

  /** Re-saving a stored user unchanged gives back the same row when its level is one the combo offers. */
  lemma ResaveUser(u: User)
    requires IsTrimmed(u.name) && u.name != "" && IsTrimmed(u.password) && u.password != "" && IsTrimmed(u.note)
    requires u.level in LevelNumbers
    ensures Validate(EditForm(u)) == Accepted(u)
  {
    TrimOfTrimmed(u.name);
    TrimOfTrimmed(u.password);
    TrimOfTrimmed(u.note);
    LevelRoundTrip(u.level);
  }
}
