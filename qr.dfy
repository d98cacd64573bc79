/**
 * The QR payment payload `QRPAY|sessionId|amount|currency|merchantId|transactionRef`
 * as both controllers read it: the prefix test, Java's split on '|' (which
 * drops trailing empty fields) with exactly six parts required, and the
 * amount text read as a decimal number of cents.
 */
module QrPayload {
  import opened Common

  const Prefix: string := "QRPAY|"

  /** The five fields after the prefix, as text. */
  datatype QrFields = QrFields(
    sessionId: string,
    amountText: string,
    currency: string,
    merchantId: string,
    transactionRef: string)

  datatype QrError =
    | InvalidQrFormat   // "Invalid QR format"
    | MalformedQrData   // "Malformed QR data"

  function FieldList(f: QrFields): seq<string> {
    [f.sessionId, f.amountText, f.currency, f.merchantId, f.transactionRef]
  }

  /** A payload the parser reproduces: no field holds the separator and the last is not empty. */
  predicate Encodable(f: QrFields) {
    (forall i :: 0 <= i < 5 ==> '|' !in FieldList(f)[i]) && f.transactionRef != ""
  }

  /** The payload text for `f`. */
  function FormatQr(f: QrFields): (s: string)
    ensures StartsWith(s, Prefix)
  {
    Join(["QRPAY"] + FieldList(f), '|')
  }

  /**
   * The parse of validateQR: a missing payload, or one not starting with
   * "QRPAY|", is an invalid format; otherwise the payload is split on '|'
   * and must give exactly six parts, the first being the prefix word.
   */
  function ParseQr(qr: Option<string>): (r: Result<QrFields, QrError>)
    ensures r == Err(InvalidQrFormat) <==> qr.None? || !StartsWith(qr.value, Prefix)
    ensures qr.Some? && StartsWith(qr.value, Prefix) ==>
      (r == Err(MalformedQrData) <==> |JavaSplit(qr.value, '|')| != 6)
    ensures r.Ok? ==> |JavaSplit(qr.value, '|')| == 6 && FieldList(r.value) == JavaSplit(qr.value, '|')[1..]
    ensures r.Ok? ==> Encodable(r.value)
  {
    if qr.None? || !StartsWith(qr.value, Prefix) then Err(InvalidQrFormat)
    else
      var s := qr.value;
      assert s[5] == '|';
      var parts := JavaSplit(s, '|');
      if |parts| != 6 then Err(MalformedQrData)
      else Ok(QrFields(parts[1], parts[2], parts[3], parts[4], parts[5]))
  }

  /** Parsing a formatted payload gives its fields back. */
  lemma ParseFormatQr(f: QrFields)
    requires Encodable(f)
    ensures ParseQr(Some(FormatQr(f))) == Ok(f)
  {
    var fields := ["QRPAY"] + FieldList(f);
    var s := FormatQr(f);
    assert forall i :: 0 <= i < |fields| ==> '|' !in fields[i] by {
      assert forall i :: 1 <= i < |fields| ==> fields[i] == FieldList(f)[i - 1];
    }
    SplitAllJoin(fields, '|');
    assert s[5] == '|';
    assert JavaSplit(s, '|') == fields;
  }

  /**
   * Conversely, a payload that parses is the formatting of its fields,
   * followed by nothing but separators: the parser neither invents nor
   * drops any text other than trailing separators.
   */
  lemma ParsedPayloadIsFormatted(s: string)
    requires ParseQr(Some(s)).Ok?
    ensures var f := ParseQr(Some(s)).value;
      |FormatQr(f)| <= |s| && s == FormatQr(f) + Separators(|s| - |FormatQr(f)|)
  {
    var f := ParseQr(Some(s)).value;
    var parts := JavaSplit(s, '|');
    var all := SplitAll(s, '|');
    assert s[5] == '|';
    var k := |all| - |parts|;
    assert all == parts + Empties(k);
    assert s == "QRPAY" + ['|'] + s[6..];
    SplitAllAfterField("QRPAY", '|', s[6..]);
    assert parts[0] == all[0] == "QRPAY";
    assert parts == ["QRPAY"] + FieldList(f);
    JoinSplitAll(s, '|');
    JoinEmpties(parts, k);
  }

  /** A seventh field makes the payload malformed. */
  lemma ExtraFieldIsMalformed(f: QrFields, extra: string)
    requires Encodable(f) && extra != "" && '|' !in extra
    ensures ParseQr(Some(FormatQr(f) + "|" + extra)) == Err(MalformedQrData)
  {
    var fields := ["QRPAY"] + FieldList(f);
    assert forall i :: 0 <= i < |fields| ==> '|' !in fields[i] by {
      assert forall i :: 1 <= i < |fields| ==> fields[i] == FieldList(f)[i - 1];
    }
    var seven := fields + [extra];
    JoinSnoc(fields, extra, '|');
    assert Join(seven, '|') == FormatQr(f) + "|" + extra;
    SplitAllJoin(seven, '|');
    var s := FormatQr(f) + "|" + extra;
    assert s[5] == '|';
    assert |JavaSplit(s, '|')| == 7;
  }

  /**
   * A payload whose reference field is empty is malformed: the split drops
   * the trailing empty field and leaves too few parts.
   */
  lemma EmptyReferenceIsMalformed(f: QrFields)
    requires forall i :: 0 <= i < 5 ==> '|' !in FieldList(f)[i]
    requires f.transactionRef == ""
    ensures ParseQr(Some(FormatQr(f))) == Err(MalformedQrData)
  {
    var fields := ["QRPAY"] + FieldList(f);
    var s := FormatQr(f);
    assert forall i :: 0 <= i < |fields| ==> '|' !in fields[i] by {
      assert forall i :: 1 <= i < |fields| ==> fields[i] == FieldList(f)[i - 1];
    }
    SplitAllJoin(fields, '|');
    assert s[5] == '|';
    var parts := DropTrailingEmpty(fields);
    assert |parts| != 6;
  }

  /**
   * Trailing separators are tolerated: the split drops the empty fields they
   * create, so the payload still parses to the same fields.
   */
  lemma TrailingSeparatorsIgnored(f: QrFields, extra: nat)
    requires Encodable(f)
    ensures ParseQr(Some(FormatQr(f) + Separators(extra))) == Ok(f)
  {
    var fields := ["QRPAY"] + FieldList(f);
    assert forall i :: 0 <= i < |fields| ==> '|' !in fields[i] by {
      assert forall i :: 1 <= i < |fields| ==> fields[i] == FieldList(f)[i - 1];
    }
    var padded := fields + Empties(extra);
    JoinEmpties(fields, extra);
    assert forall i :: 0 <= i < |padded| ==> '|' !in padded[i];
    SplitAllJoin(padded, '|');
    var s := FormatQr(f) + Separators(extra);
    assert s == Join(padded, '|');
    assert s[5] == '|';
    DropEmpties(fields, extra);
    assert JavaSplit(s, '|') == fields;
    assert fields[1..] == FieldList(f);
  }

  function Separators(n: nat): (s: string)
    ensures |s| == n
  {
    if n == 0 then "" else Separators(n - 1) + "|"
  }

  function Empties(n: nat): (s: seq<string>)
    ensures |s| == n && forall i :: 0 <= i < n ==> s[i] == ""
  {
    if n == 0 then [] else Empties(n - 1) + [""]
  }

  lemma {:induction false} JoinEmpties(fields: seq<string>, n: nat)
    requires |fields| >= 1
    ensures Join(fields + Empties(n), '|') == Join(fields, '|') + Separators(n)
    decreases n
  {
    if n > 0 {
      JoinEmpties(fields, n - 1);
      JoinSnoc(fields + Empties(n - 1), "", '|');
      assert fields + Empties(n) == fields + Empties(n - 1) + [""];
      calc {
        Join(fields + Empties(n), '|');
        Join(fields + Empties(n - 1), '|') + ['|'] + "";
        Join(fields, '|') + Separators(n - 1) + ['|'];
        Join(fields, '|') + Separators(n);
      }
    } else {
      assert fields + Empties(n) == fields;
    }
  }

  lemma {:induction false} JoinSnoc(fields: seq<string>, last: string, sep: char)
    requires |fields| >= 1
    ensures Join(fields + [last], sep) == Join(fields, sep) + [sep] + last
    decreases |fields|
  {
    if |fields| > 1 {
      assert (fields + [last])[1..] == fields[1..] + [last];
      JoinSnoc(fields[1..], last, sep);
    }
  }

  lemma {:induction false} DropEmpties(fields: seq<string>, n: nat)
    requires |fields| >= 1 && fields[|fields| - 1] != ""
    ensures DropTrailingEmpty(fields + Empties(n)) == fields
    decreases n
  {
    if n > 0 {
      var padded := fields + Empties(n);
      assert padded[..|padded| - 1] == fields + Empties(n - 1);
      DropEmpties(fields, n - 1);
    }
  }

  // ---------------------------------------------------------------------------
  // The amount field
  // ---------------------------------------------------------------------------

  /** The cents of a fraction part of at most two digits. */
  function FractionCents(frac: string): (c: nat)
    requires AllDigits(frac) && |frac| <= 2
    ensures c < 100
  {
    if |frac| == 0 then 0
    else if |frac| == 1 then DigitValue(frac[0]) * 10
    else DigitValue(frac[0]) * 10 + DigitValue(frac[1])
  }

  /**
   * An unsigned plain decimal: digits, optionally a point and at most two
   * more digits, with at least one digit in all ("5", "5.", ".5", "5.25").
   */
  function ParseUnsignedCents(s: string): (r: Option<nat>)
    ensures r.Some? ==> |s| >= 1
  {
    var parts := SplitAll(s, '.');
    if |parts| > 2 then None
    else
      var whole := parts[0];
      var frac := if |parts| == 2 then parts[1] else "";
      if AllDigits(whole) && AllDigits(frac) && |whole| + |frac| >= 1 && |frac| <= 2 then
        Some(DigitsValue(whole) * 100 + FractionCents(frac))
      else None
  }

  /** The amount text of a QR payload in cents, with an optional sign. */
  function ParseCents(s: string): (r: Option<int>)
  {
    if |s| > 0 && s[0] == '-' then
      match ParseUnsignedCents(s[1..])
      case Some(c) => Some(-(c as int))
      case None => None
    else if |s| > 0 && s[0] == '+' then
      match ParseUnsignedCents(s[1..])
      case Some(c) => Some(c)
      case None => None
    else
      match ParseUnsignedCents(s)
      case Some(c) => Some(c)
      case None => None
  }

  /** Two-place decimal notation of an amount in cents. */
  function FormatCents(c: int): (s: string)
    ensures |s| >= 4
  {
    var m := if c < 0 then -c else c;
    (if c < 0 then "-" else "") + UnsignedCentsText(m)
  }

  function UnsignedCentsText(m: nat): (s: string)
    ensures |s| >= 4 && IsDigit(s[0])
  {
    FormatNat(m / 100) + "." + [DigitChar(m % 100 / 10), DigitChar(m % 10)]
  }

  lemma UnsignedCentsRoundTrip(m: nat)
    ensures ParseUnsignedCents(UnsignedCentsText(m)) == Some(m)
  {
    var whole := FormatNat(m / 100);
    var frac := [DigitChar(m % 100 / 10), DigitChar(m % 10)];
    DigitsExclude(whole, '.');
    DigitsExclude(frac, '.');
    assert Join([whole, frac], '.') == UnsignedCentsText(m);
    SplitAllJoin([whole, frac], '.');
    DigitsValueOfFormat(m / 100);
    assert FractionCents(frac) == m % 100;
  }

  /** Reading a formatted amount gives the amount back. */
  lemma ParseFormatCents(c: int)
    ensures ParseCents(FormatCents(c)) == Some(c)
  {
    var m := if c < 0 then -c else c;
    var u := UnsignedCentsText(m);
    UnsignedCentsRoundTrip(m);
    if c < 0 {
      assert FormatCents(c)[1..] == u;
    } else {
      assert FormatCents(c) == u;
    }
  }
}
