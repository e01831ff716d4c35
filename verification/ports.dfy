/**
 * The port notation shared by the VLAN and IP panels. Rows store a port as a type label
 * from the combo box ("XGE口", "GE口", "FE口", "E口") followed by the typed number; the
 * edit dialog splits a stored port back into label and number, and the command preview
 * replaces the label with the interface name Huawei VRP expects.
 *
 * The source cuts the stored port at the same character offsets in both places: 3 for
 * "XGE口" and 2 for the other labels. Only for "E口" (two characters) is that the whole
 * label; for the three longer labels the trailing "口" stays in front of the number.
 */
module Ports {
  import opened Text

  const XgeLabel: string := "XGE口"
  const GeLabel: string := "GE口"
  const FeLabel: string := "FE口"
  const ELabel: string := "E口"

  /** The port-type combo, in display order. */
  const Labels: seq<string> := [XgeLabel, GeLabel, FeLabel, ELabel]

  datatype Kind = Xge | Ge | Fe | Eth | Unknown

  /** The `startsWith` chain, tried in the source's order. */
  function Classify(port: string): (k: Kind)
    ensures k == Xge <==> XgeLabel <= port
    ensures k == Ge <==> GeLabel <= port
    ensures k == Fe <==> FeLabel <= port
    ensures k == Eth <==> ELabel <= port
  {
    LabelHeads(port);
    if XgeLabel <= port then Xge
    else if GeLabel <= port then Ge
    else if FeLabel <= port then Fe
    else if ELabel <= port then Eth
    else Unknown
  }

  /** The four labels start with four different characters, so at most one is a prefix. */
  lemma LabelHeads(port: string)
    ensures XgeLabel <= port ==> port[0] == 'X'
    ensures GeLabel <= port ==> port[0] == 'G'
    ensures FeLabel <= port ==> port[0] == 'F'
    ensures ELabel <= port ==> port[0] == 'E'
  {
  }

  /** The label of each known kind. */
  function Label(k: Kind): string
    requires k != Unknown
  {
    match k
    case Xge => XgeLabel
    case Ge => GeLabel
    case Fe => FeLabel
    case Eth => ELabel
  }

  /** How many leading characters the source cuts off a port of this kind. */
  function Cut(k: Kind): nat
    requires k != Unknown
  {
    if k == Xge then 3 else 2
  }

  /** The VRP interface name the preview puts in place of the label. */
  function InterfaceName(k: Kind): string
    requires k != Unknown
  {
    match k
    case Xge => "XGigabitethernet"
    case Ge => "Gigabitethernet"
    case Fe => "FastEthernet"
    case Eth => "Ethernet"
  }

  /** The label characters the cut leaves in place: "口" for the three-character labels. */
  function Leftover(k: Kind): (r: string)
    requires k != Unknown
    ensures Label(k) == Label(k)[..Cut(k)] + r
  {
    if k == Eth then "" else "口"
  }

  /** The preview's port mapping: a known label is replaced by its interface name, anything else is kept. */
  function MapPort(port: string): (r: string)
    ensures Classify(port) == Unknown ==> r == port
    ensures Classify(port) != Unknown ==>
      r == InterfaceName(Classify(port)) + Leftover(Classify(port)) + port[|Label(Classify(port))|..]
  {
    var k := Classify(port);
    if k == Unknown then port
    else
      assert port == Label(k) + port[|Label(k)|..];
      assert port[Cut(k)..] == Leftover(k) + port[|Label(k)|..];
      InterfaceName(k) + port[Cut(k)..]
  }

  /** What the edit dialog shows for a stored port: the selected combo label and the number field. */
  datatype Fields = Fields(portType: string, number: string)

  /** The edit dialog's pre-fill: a recognised label is selected; otherwise the whole port goes to the number field. */
  function Prefill(port: string): (r: Fields)
    ensures r.portType in Labels
    ensures Classify(port) == Unknown ==> r == Fields(XgeLabel, port)
    ensures Classify(port) != Unknown ==>
      r.portType == Label(Classify(port)) && r.number == Leftover(Classify(port)) + port[|r.portType|..]
  {
    var k := Classify(port);
    if k == Unknown then Fields(XgeLabel, port)
    else
      assert port == Label(k) + port[|Label(k)|..];
      assert port[Cut(k)..] == Leftover(k) + port[|Label(k)|..];
      Fields(Label(k), port[Cut(k)..])
  }

  /** The OK button's port: the selected label followed by the trimmed number. */
  function Compose(portType: string, number: string): (r: string)
    ensures portType <= r
  {
    portType + Trim(number)
  }

  /** A port that starts with a label is of that label's kind, whatever follows. */
  lemma ClassifyLabelled(k: Kind, rest: string)
    requires k != Unknown
    ensures Classify(Label(k) + rest) == k
  {
    var p := Label(k) + rest;
    assert p[..|Label(k)|] == Label(k);
    LabelHeads(p);
  }

  /** The kind of a composed port is decided by the label alone, whatever number follows. */
  lemma ClassifyCompose(k: Kind, number: string)
    requires k != Unknown
    ensures Classify(Compose(Label(k), number)) == k
  {
    ClassifyLabelled(k, Trim(number));
  }

  /** The edit dialog splits a labelled port into the label and the leftover plus the rest. */
  lemma PrefillLabelled(k: Kind, rest: string)
    requires k != Unknown
    ensures Prefill(Label(k) + rest) == Fields(Label(k), Leftover(k) + rest)
  {
    ClassifyLabelled(k, rest);
    assert (Label(k) + rest)[|Label(k)|..] == rest;
  }

  /**
   * The interface a saved port becomes in the preview: the VRP name, then the leftover
   * "口" (for all labels but "E口"), then the trimmed number the user typed.
   */
  lemma PreviewOfComposed(k: Kind, number: string)
    requires k != Unknown
    ensures MapPort(Compose(Label(k), number)) == InterfaceName(k) + Leftover(k) + Trim(number)
  {
    ClassifyCompose(k, number);
    var p := Compose(Label(k), number);
    assert p[|Label(k)|..] == Trim(number);
  }

  /** Open the edit dialog on `port` and press OK without touching the fields. */
  function ResaveOnce(port: string): (r: string)
    ensures Prefill(port).portType <= r
  {
    var s := Prefill(port);
    Compose(s.portType, s.number)
  }

  /**
   * Re-saving a port with a known label gives back the port exactly when the label is
   * "E口"; for the three longer labels one more "口" is inserted after the label, so
   * every unchanged edit lengthens the port by one character.
   */
  lemma ResaveKnownPort(k: Kind, number: string)
    requires k != Unknown
    requires IsTrimmed(number)
    ensures ResaveOnce(Label(k) + number) == Label(k) + Leftover(k) + number
    ensures ResaveOnce(Label(k) + number) == Label(k) + number <==> k == Eth
    ensures IsTrimmed(Leftover(k) + number)
  {
    ResaveOnceKnown(k, number);
    ResaveNumber(k, number);
    LeftoverMatters(k, number);
  }

  lemma ResaveOnceKnown(k: Kind, number: string)
    requires k != Unknown
    requires IsTrimmed(number)
    ensures ResaveOnce(Label(k) + number) == Label(k) + Leftover(k) + number
  {
    PrefillLabelled(k, number);
    ResaveNumber(k, number);
  }

  lemma LeftoverMatters(k: Kind, number: string)
    requires k != Unknown
    ensures Label(k) + Leftover(k) + number == Label(k) + number <==> k == Eth
  {
    if k != Eth {
      assert |Label(k) + Leftover(k) + number| == |Label(k) + number| + 1;
    }
  }

  /** A port without a known label is re-saved under the first label, "XGE口". */
  lemma ResaveUnknownPort(port: string)
    requires Classify(port) == Unknown
    ensures ResaveOnce(port) == XgeLabel + Trim(port)
    ensures ResaveOnce(port) != port
  {
    assert ResaveOnce(port)[..|XgeLabel|] == XgeLabel;
  }

  /** The pre-filled number survives the OK button's `trim` unchanged. */
  lemma ResaveNumber(k: Kind, number: string)
    requires k != Unknown
    requires IsTrimmed(number)
    ensures Trim(Leftover(k) + number) == Leftover(k) + number
  {
    if k == Eth {
      assert Leftover(k) + number == number;
      TrimOfTrimmed(number);
    } else {
      TrimKeepsPrefixOrEmpty(number);
    }
  }

  lemma TrimKeepsPrefixOrEmpty(number: string)
    requires IsTrimmed(number)
    ensures Trim("口" + number) == "口" + number
  {
    if number == [] {
      TrimOfTrimmed("口");
    } else {
      TrimKeepsPrefix('口', number);
    }
  }
}
