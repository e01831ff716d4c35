/**
 * The table model every configuration panel keeps its entries in, and the life cycle of
 * the add/edit dialog: the OK button either refuses the form with a warning (the table is
 * left alone) or appends a new row ("新增") or overwrites the row that was selected when
 * the dialog opened ("编辑"). Deleting needs a selection and a confirmation.
 */
module Store {
  import opened Optional

  /** The outcome of the OK button's checks: the row to store, or the warning shown instead. */
  datatype Checked<T> = Accepted(row: T) | Refused(warning: string)

  /** Which dialog the OK button belongs to. */
  datatype Dialog = Adding | Editing(row: nat)

  /** A table selection: `None` is JTable's `-1`; otherwise an index into the rows. */
  predicate ValidSelection<T>(t: seq<T>, sel: Option<nat>) {
    sel.None? || sel.value < |t|
  }

  /** `DefaultTableModel.addRow`. */
  function Append<T>(t: seq<T>, row: T): (r: seq<T>)
    ensures |r| == |t| + 1 && r[..|t|] == t && r[|t|] == row
  {
    t + [row]
  }

  /** `setValueAt` on every cell of row `i`. */
  function Overwrite<T>(t: seq<T>, i: nat, row: T): (r: seq<T>)
    requires i < |t|
    ensures |r| == |t| && r[i] == row
    ensures forall k :: 0 <= k < |t| && k != i ==> r[k] == t[k]
  {
    t[i := row]
  }

  /** `DefaultTableModel.removeRow`: the later rows move up by one. */
  function RemoveAt<T>(t: seq<T>, i: nat): (r: seq<T>)
    requires i < |t|
    ensures |r| == |t| - 1
    ensures forall k :: 0 <= k < i ==> r[k] == t[k]
    ensures forall k :: i <= k < |r| ==> r[k] == t[k + 1]
  {
    t[..i] + t[i + 1..]
  }

  /** The OK button: store the accepted row through the dialog, or keep the table. */
  function Save<T>(t: seq<T>, d: Dialog, c: Checked<T>): (r: seq<T>)
    requires d.Editing? ==> d.row < |t|
    ensures c.Refused? ==> r == t
    ensures d.Adding? && c.Accepted? ==> r == Append(t, c.row)
    ensures d.Editing? && c.Accepted? ==> r == Overwrite(t, d.row, c.row)
  {
    match c
    case Refused(_) => t
    case Accepted(row) =>
      match d
      case Adding => Append(t, row)
      case Editing(i) => Overwrite(t, i, row)
  }

  /** The edit button: with a selection it opens the edit dialog on that row; without one, nothing. */
  function OpenEditor<T>(t: seq<T>, sel: Option<nat>): (r: Option<Dialog>)
    requires ValidSelection(t, sel)
    ensures r.Some? <==> sel.Some?
    ensures r.Some? ==> r.value.Editing? && r.value.row == sel.value && r.value.row < |t|
  {
    match sel
    case None => None
    case Some(i) => Some(Editing(i))
  }

  /** The delete button: a selected row is removed only after the user confirms. */
  function Delete<T>(t: seq<T>, sel: Option<nat>, confirmed: bool): (r: seq<T>)
    requires ValidSelection(t, sel)
    ensures sel.None? || !confirmed ==> r == t
    ensures sel.Some? && confirmed ==> r == RemoveAt(t, sel.value)
  {
    if sel.Some? && confirmed then RemoveAt(t, sel.value) else t
  }

  /**
   * `JComboBox.setSelectedItem` on a fresh, non-editable combo: an item from the list
   * becomes the selection; any other value leaves the default first item selected.
   */
  function Combo(options: seq<string>, stored: string): (r: string)
    requires |options| > 0
    ensures r in options
    ensures stored in options <==> r == stored
    ensures stored !in options ==> r == options[0]
  {
    if stored in options then stored else options[0]
  }

  /** Deleting the row just added gives back the table as it was. */
  lemma DeleteUndoesAdd<T>(t: seq<T>, row: T)
    ensures Delete(Save(t, Adding, Accepted(row)), Some(|t|), true) == t
  {
    assert Save(t, Adding, Accepted(row))[..|t|] == t;
  }

  /** Saving an edit that changes nothing leaves the table unchanged. */
  lemma EditWithSameRowIsIdentity<T>(t: seq<T>, i: nat)
    requires i < |t|
    ensures Save(t, Editing(i), Accepted(t[i])) == t
  {
  }

  /** Of two edits to the same row, the later one wins. */
  lemma LastEditWins<T>(t: seq<T>, i: nat, a: T, b: T)
    requires i < |t|
    ensures Save(Save(t, Editing(i), Accepted(a)), Editing(i), Accepted(b)) == Save(t, Editing(i), Accepted(b))
  {
  }

  /** Deleting removes exactly one occurrence of the selected row and keeps every other row. */
  lemma DeleteRemovesOne<T>(t: seq<T>, i: nat)
    requires i < |t|
    ensures multiset(Delete(t, Some(i), true)) + multiset{t[i]} == multiset(t)
  {
    assert t == t[..i] + [t[i]] + t[i + 1..];
  }
}
