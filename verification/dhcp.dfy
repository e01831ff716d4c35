/**
 * The DHCP panel: address pools (name, network, mask, gateway, DNS server, lease in hours).
 * The preview enables DHCP and emits an `ip pool` block for the selected pool.
 */
module Dhcp {
  import opened Optional
  import opened Text
  import opened Store
  import opened Commands

  datatype Pool = Pool(name: string, network: string, mask: string, gateway: string, dns: string, lease: string)

  const Demo: seq<Pool> := [
    Pool("office", "192.168.10.0", "255.255.255.0", "192.168.10.1", "8.8.8.8", "24"),
    Pool("lab", "10.0.0.0", "255.255.255.0", "10.0.0.254", "223.5.5.5", "12")
  ]

  const MissingFields: string := "请填写池名称、网段、掩码、网关"
  const BadLease: string := "租期须为1~168小时的数字"
  const NoSelection: string := "请先选择DHCP池条目"

  datatype Form = Form(name: string, network: string, mask: string, gateway: string, dns: string, lease: string)

  /** The new-pool dialog: every field empty except the lease, which starts at 24 hours. */
  const NewForm: Form := Form("", "", "", "", "", "24")

  /** The edit dialog shows the stored row as it is. */
  function EditForm(p: Pool): (f: Form)
    ensures f.name == p.name && f.network == p.network && f.mask == p.mask
    ensures f.gateway == p.gateway && f.dns == p.dns && f.lease == p.lease
  {
    Form(p.name, p.network, p.mask, p.gateway, p.dns, p.lease)
  }

  /** The OK button: name, network, mask and gateway are required; the lease must be 1..168 hours. */
  function Validate(f: Form): (r: Checked<Pool>)
    ensures r.Accepted? <==>
      Trim(f.name) != "" && Trim(f.network) != "" && Trim(f.mask) != "" && Trim(f.gateway) != "" && ParsesInRange(Trim(f.lease), 1, 168)
    ensures r.Accepted? ==> r.row == Pool(Trim(f.name), Trim(f.network), Trim(f.mask), Trim(f.gateway), Trim(f.dns), Trim(f.lease))
    ensures r.Refused? ==>
      r.warning == if Trim(f.name) == "" || Trim(f.network) == "" || Trim(f.mask) == "" || Trim(f.gateway) == "" then MissingFields else BadLease
  {
    var name := Trim(f.name);
    var network := Trim(f.network);
    var mask := Trim(f.mask);
    var gateway := Trim(f.gateway);
    var lease := Trim(f.lease);
    if name == "" || network == "" || mask == "" || gateway == "" then Refused(MissingFields)
    else if !ParsesInRange(lease, 1, 168) then Refused(BadLease)
    else Accepted(Pool(name, network, mask, gateway, Trim(f.dns), lease))
  }

  function Script(p: Pool): (r: seq<string>)
    ensures |r| == if p.dns == "" then 6 else 7
    ensures r[0] == "dhcp enable" && r[1] == "ip pool " + p.name && r[|r| - 1] == " quit"
    ensures r[2] == " network " + p.network + " " + p.mask
    ensures r[3] == " gateway-list " + p.gateway && r[|r| - 2] == " lease day 0 hour " + p.lease
    ensures p.dns != "" <==> r[4] == " dns-list " + p.dns
  {
    ["dhcp enable", "ip pool " + p.name, " network " + p.network + " " + p.mask, " gateway-list " + p.gateway]
    + When(p.dns != "", " dns-list " + p.dns)
    + [" lease day 0 hour " + p.lease, " quit"]
  }

  function Preview(t: seq<Pool>, sel: Option<nat>): (r: Output)
    requires ValidSelection(t, sel)
    ensures sel.None? <==> r == Prompt(NoSelection)
    ensures sel.Some? ==> r == Lines(Script(t[sel.value]))
  {
    if sel.None? then Prompt(NoSelection) else Lines(Script(t[sel.value]))
  }

  /** A `dns-list` command appears exactly when the pool has a DNS server. */
  lemma DnsListIffDns(p: Pool)
    ensures CountPrefixed(Script(p), " dns-list ") == if p.dns == "" then 0 else 1
  {
    var head := ["dhcp enable", "ip pool " + p.name, " network " + p.network + " " + p.mask, " gateway-list " + p.gateway];
    var dns := When(p.dns != "", " dns-list " + p.dns);
    var tail := [" lease day 0 hour " + p.lease, " quit"];
    forall k | 0 <= k < |head| ensures !(" dns-list " <= head[k]) {
      if k < 2 {
        DiffersAt(" dns-list ", head[k], 0);
      } else {
        DiffersAt(" dns-list ", head[k], 1);
      }
    }
    forall k | 0 <= k < |tail| ensures !(" dns-list " <= tail[k]) {
      DiffersAt(" dns-list ", tail[k], 1);
    }
    CountPrefixedAppend(head + dns, tail, " dns-list ");
    CountPrefixedAppend(head, dns, " dns-list ");
    if p.dns != "" {
      PrefixValue(" dns-list ", p.dns);
      CountPrefixedCons(dns[0], [], " dns-list ");
      assert dns == [dns[0]] + [];
    }
  }

  /** Every pool the dialog accepts leases addresses for 1 to 168 hours, and the preview says so. */
  lemma SavedLeaseInRange(f: Form)
    requires Validate(f).Accepted?
    ensures var p := Validate(f).row;
      ParsesInRange(p.lease, 1, 168) && Script(p)[|Script(p)| - 2] == " lease day 0 hour " + p.lease
  {
  }

  /** The 24-hour default the new-pool dialog offers is itself an accepted lease. */
  lemma DefaultLeaseAccepted()
    ensures ParsesInRange(Trim(NewForm.lease), 1, 168)
  {
    TrimOfTrimmed("24");
    assert DigitsValue("24") == 24 by {
      assert "24"[..1] == "2";
    }
  }

  /** Re-saving a stored pool unchanged gives back the same row. */
  lemma ResavePool(p: Pool)
    requires IsTrimmed(p.name) && p.name != "" && IsTrimmed(p.network) && p.network != ""
    requires IsTrimmed(p.mask) && p.mask != "" && IsTrimmed(p.gateway) && p.gateway != ""
    requires IsTrimmed(p.dns) && IsTrimmed(p.lease) && ParsesInRange(p.lease, 1, 168)
    ensures Validate(EditForm(p)) == Accepted(p)
  {
    TrimOfTrimmed(p.name);
    TrimOfTrimmed(p.network);
    TrimOfTrimmed(p.mask);
    TrimOfTrimmed(p.gateway);
    TrimOfTrimmed(p.dns);
    TrimOfTrimmed(p.lease);
  }
}
