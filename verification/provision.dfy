/** The batch provisioning script's per-row logic (`tools/provision_batch.py`):
    the ZIP taken from a normalised address, the short serial, the check on
    the 64-hex-digit Sidewalk manufacturing serial, and the accept/skip
    decision with the device name it composes. The site-id encryption and
    the certificate file are inputs. */
module Provision {
  import opened Wrappers
  import opened Text
  import SiteAddress

  /** `parse_zip_from_canonical`: the last white-space separated token, or
      `""` when there is none. */
  function ParseZip(canonical: string): (z: string)
    ensures z == "" <==> Runs(canonical, NotSpace) == []
    ensures z != "" ==> z == Runs(canonical, NotSpace)[|Runs(canonical, NotSpace)| - 1]
  {
    var parts := Runs(canonical, NotSpace);
    if parts == [] then "" else parts[|parts| - 1]
  }

  /** On a normalised address the last token is the full ZIP. */
  lemma ZipOfNormalized(address: string)
    requires SiteAddress.ParseUsAddress(address).Some?
    ensures var p := SiteAddress.ParseUsAddress(address).value;
            ParseZip(SiteAddress.Normalize(address)) == SiteAddress.ZipFull(p.zip5, p.zip4)
  {
    ZipOfRender(SiteAddress.ParseUsAddress(address).value);
  }

  lemma ZipOfRender(p: SiteAddress.UsAddress)
    requires SiteAddress.WellShaped(SiteAddress.GroupsOf(p))
    ensures ParseZip(SiteAddress.Render(p)) == SiteAddress.ZipFull(p.zip5, p.zip4)
  {
    var zf := SiteAddress.ZipFull(p.zip5, p.zip4);
    var pre := SiteAddress.RenderEndsWithZip(p);
    SiteAddress.ZipFullShape(SiteAddress.GroupsOf(p));
    RunsAppend(pre, zf, NotSpace);
    RunsOfOne(zf, NotSpace);
  }

  function Min(a: int, b: int): int
  {
    if a < b then a else b
  }

  /** `short_serial_from_sn`: the last eight characters of the stripped
      serial, or all of it when it is shorter. */
  function ShortSerial(sn: string): (r: string)
    ensures |r| == Min(8, |Strip(sn)|)
    ensures EndsWith(Strip(sn), r)
  {
    var s := Strip(sn);
    if |s| >= 8 then s[|s| - 8..] else s
  }

  const HEX_DIGITS: string := "0123456789abcdefABCDEF"

  /** `validate_sidewalk_sn`. */
  function ValidSidewalkSn(sn: string): (b: bool)
    ensures b <==> |sn| == 64 && forall i | 0 <= i < |sn| :: IsHexDigit(sn[i])
  {
    HexDigitsAreHex();
    forall i | 0 <= i < |sn| && IsHexDigit(sn[i]) ensures sn[i] in HEX_DIGITS {
      HexIsListed(sn[i]);
    }
    |sn| == 64 && forall i | 0 <= i < |sn| :: sn[i] in HEX_DIGITS
  }

  lemma HexDigitsAreHex()
    ensures forall i | 0 <= i < |HEX_DIGITS| :: IsHexDigit(HEX_DIGITS[i])
  {
  }

  lemma HexIsListed(c: char)
    requires IsHexDigit(c)
    ensures c in HEX_DIGITS
  {
    if IsDigit(c) {
      assert HEX_DIGITS[c as int - '0' as int] == c;
    } else if 'a' <= c <= 'f' {
      assert HEX_DIGITS[10 + c as int - 'a' as int] == c;
    } else {
      assert HEX_DIGITS[16 + c as int - 'A' as int] == c;
    }
  }

  /** For a valid serial the short serial is its last eight digits. */
  lemma ShortSerialOfValid(sn: string)
    requires ValidSidewalkSn(sn)
    ensures ShortSerial(sn) == sn[56..]
  {
    assert !IsSpace(sn[0]) && !IsSpace(sn[63]);
    StripFixed(sn);
  }

  // ---------------------------------------------------------------------
  // one CSV row

  /** The CSV columns the row loop reads; `None` is a missing cell. */
  datatype Row = Row(address: Option<string>, sidewalkSn: Option<string>, certPath: Option<string>)

  /** `(row.get(key) or "").strip()`. */
  function Cell(c: Option<string>): string
  {
    Strip(c.GetOr(""))
  }

  /** `smsn_from_certificate_json`, given the certificate's `metadata.smsn`
      value (`None` when the file, the JSON or the key is missing). */
  function SmsnFromCertificate(smsn: Option<string>): string
  {
    Strip(smsn.GetOr(""))
  }

  /** The serial the row uses: its own cell, or the certificate's when the
      cell is empty and a certificate path is given. */
  function ChosenSn(row: Row, certSmsn: Option<string>): string
  {
    if Cell(row.sidewalkSn) == "" && Cell(row.certPath) != "" then SmsnFromCertificate(certSmsn)
    else Cell(row.sidewalkSn)
  }

  /** The reasons a row is skipped, in the order they are checked. */
  datatype Skip = MissingAddress | InvalidAddress | MissingSn | BadSn

  datatype RowOutcome =
    | Skipped(reason: Skip)
    | Provisioned(canonical: string, siteIdShort: string, installZip: string,
                  sidewalkSn: string, deviceName: string)

  /** `sw-rak4630-{site_id_short}-{short_serial}`. */
  function DeviceName(siteIdShort: string, shortSerial: string): string
  {
    "sw-rak4630-" + siteIdShort + "-" + shortSerial
  }

  /** `site_id_full[:8]`. */
  function First8(s: string): (r: string)
    ensures |r| == Min(8, |s|) && r <= s
  {
    if |s| >= 8 then s[..8] else s
  }

  /** The row loop's body: `siteIdOf` is `site_id_encrypt` with the
      customer id and key fixed, and `certSmsn` the certificate's serial. */
  function ProcessRow(row: Row, siteIdOf: string -> string, certSmsn: Option<string>): (o: RowOutcome)
    // the skips, in order
    ensures Cell(row.address) == "" ==> o == Skipped(MissingAddress)
    ensures Cell(row.address) != "" && SiteAddress.ParseUsAddress(Cell(row.address)).None? ==>
              o == Skipped(InvalidAddress)
    ensures Cell(row.address) != "" && SiteAddress.ParseUsAddress(Cell(row.address)).Some? ==>
              (ChosenSn(row, certSmsn) == "" ==> o == Skipped(MissingSn))
              && (ChosenSn(row, certSmsn) != "" && !ValidSidewalkSn(ChosenSn(row, certSmsn)) ==>
                    o == Skipped(BadSn))
    // a row proceeds exactly when the address parses and the serial is valid
    ensures o.Provisioned? <==>
              && Cell(row.address) != ""
              && SiteAddress.ParseUsAddress(Cell(row.address)).Some?
              && ValidSidewalkSn(ChosenSn(row, certSmsn))
    ensures o.Provisioned? ==>
              && o.canonical == SiteAddress.Normalize(Cell(row.address))
              && o.sidewalkSn == ChosenSn(row, certSmsn)
              && o.siteIdShort == First8(siteIdOf(o.canonical))
              && o.installZip == ParseZip(o.canonical)
              && o.deviceName == DeviceName(o.siteIdShort, ShortSerial(o.sidewalkSn))
  {
    var address := Cell(row.address);
    if address == "" then Skipped(MissingAddress)
    else
      var standardized := SiteAddress.Normalize(address);
      if standardized == SiteAddress.INVALID_FORMAT || standardized == "" then Skipped(InvalidAddress)
      else
        var siteIdShort := First8(siteIdOf(standardized));
        var installZip := ParseZip(standardized);
        var sn := ChosenSn(row, certSmsn);
        if sn == "" then Skipped(MissingSn)
        else if !ValidSidewalkSn(sn) then Skipped(BadSn)
        else Provisioned(standardized, siteIdShort, installZip, sn,
                         DeviceName(siteIdShort, ShortSerial(sn)))
  }

  /** A provisioned row's name is the prefix, up to eight characters of the
      site id, a hyphen and the serial's last eight digits; its ZIP is the
      parsed one. */
  lemma ProvisionedNames(row: Row, siteIdOf: string -> string, certSmsn: Option<string>)
    requires ProcessRow(row, siteIdOf, certSmsn).Provisioned?
    ensures var o := ProcessRow(row, siteIdOf, certSmsn);
            var p := SiteAddress.ParseUsAddress(Cell(row.address)).value;
            && o.deviceName == "sw-rak4630-" + o.siteIdShort + "-" + o.sidewalkSn[56..]
            && |o.deviceName| == 20 + Min(8, |siteIdOf(o.canonical)|)
            && o.installZip == SiteAddress.ZipFull(p.zip5, p.zip4)
  {
    var o := ProcessRow(row, siteIdOf, certSmsn);
    ShortSerialOfValid(o.sidewalkSn);
    ZipOfNormalized(Cell(row.address));
  }

  /** A serial in the row wins over the certificate. */
  lemma RowSerialWins(row: Row, siteIdOf: string -> string, c1: Option<string>, c2: Option<string>)
    requires Cell(row.sidewalkSn) != ""
    ensures ProcessRow(row, siteIdOf, c1) == ProcessRow(row, siteIdOf, c2)
  {
  }
}
