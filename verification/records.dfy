/**
 The text of one module record (CodeExtract.py lines 26-28):
 `{"name":"<name>","size":<size>,"imports":[<imports>]},`, and a reader that
 takes such a line apart again.
 */
module Records {
  import opened Text

  const NameOpen := "{\"name\":\""
  const SizeOpen := "\",\"size\":"
  const ImportsOpen := ",\"imports\":["
  const RecordClose := "]},"

  /** Lines 26-28, with `imports` the string `parse` returned. */
  function Record(name: string, size: nat, imports: string): (s: string)
    ensures StartsWith(s, NameOpen)
    ensures EndsWith(s, "},")
  {
    var s := NameOpen + name + SizeOpen + Decimal(size) + ImportsOpen + imports + RecordClose;
    assert s[..|NameOpen|] == NameOpen;
    assert s[|s| - 2..] == RecordClose[1..] == "},";
    s
  }

  datatype Fields = Fields(name: string, size: nat, imports: string)

  datatype Option<T> = None | Some(value: T)

  /** The tail `,"imports":[<imports>]},` of a record. */
  function ParseImportsPart(r: string): Option<string> {
    if |r| < |ImportsOpen| + |RecordClose| || !StartsWith(r, ImportsOpen) || !EndsWith(r, RecordClose)
    then None
    else Some(r[|ImportsOpen|..|r| - |RecordClose|])
  }

  /** The part after the name: `","size":<digits>` followed by the tail. */
  function ParseSizePart(r: string): Option<(nat, string)> {
    if !StartsWith(r, SizeOpen) then None else ParseDigitsPart(r[|SizeOpen|..])
  }

  /** The size digits up to the next comma, followed by the tail. */
  function ParseDigitsPart(t: string): Option<(nat, string)> {
    var k := IndexOf(t, ',');
    if k <= 0 || !AllDigits(t[..k]) then None
    else match ParseImportsPart(t[k..])
      case None => None
      case Some(imports) => Some((DecimalValue(t[..k]), imports))
  }

  /** Reads a record line: the name runs up to the next double quote, the
      size is the run of digits up to the next comma, and the import list is
      everything between `"imports":[` and the closing `]},`. */
  function ParseRecord(s: string): Option<Fields> {
    if !StartsWith(s, NameOpen) then None
    else
      var t := s[|NameOpen|..];
      var q := IndexOf(t, '"');
      if q < 0 then None
      else match ParseSizePart(t[q..])
        case None => None
        case Some(p) => Some(Fields(t[..q], p.0, p.1))
  }

  lemma ImportsPartRoundTrip(imports: string)
    ensures ParseImportsPart(ImportsOpen + imports + RecordClose) == Some(imports)
  {
    var r := ImportsOpen + imports + RecordClose;
    assert r[..|ImportsOpen|] == ImportsOpen;
    assert r[|r| - |RecordClose|..] == RecordClose;
    assert r[|ImportsOpen|..|r| - |RecordClose|] == imports;
  }

  lemma DigitsThenComma(d: string, tail: string)
    requires AllDigits(d)
    requires |tail| > 0 && tail[0] == ','
    ensures IndexOf(d + tail, ',') == |d|
    ensures (d + tail)[..|d|] == d && (d + tail)[|d|..] == tail
  {
    var t := d + tail;
    assert forall i :: 0 <= i < |d| ==> t[i] == d[i];
    FirstIndex(t, ',', |d|);
  }

  lemma DigitsPartRoundTrip(d: string, imports: string)
    requires |d| > 0 && AllDigits(d)
    ensures ParseDigitsPart(d + (ImportsOpen + imports + RecordClose)) == Some((DecimalValue(d), imports))
  {
    DigitsThenComma(d, ImportsOpen + imports + RecordClose);
    ImportsPartRoundTrip(imports);
  }

  lemma SizePartRoundTrip(d: string, imports: string)
    requires |d| > 0 && AllDigits(d)
    ensures ParseSizePart(SizeOpen + (d + (ImportsOpen + imports + RecordClose)))
            == Some((DecimalValue(d), imports))
  {
    var t := d + (ImportsOpen + imports + RecordClose);
    assert (SizeOpen + t)[..|SizeOpen|] == SizeOpen;
    assert (SizeOpen + t)[|SizeOpen|..] == t;
    DigitsPartRoundTrip(d, imports);
  }

  lemma NamePartRoundTrip(name: string, rest: string)
    requires '"' !in name
    requires |rest| > 0 && rest[0] == '"'
    ensures ParseRecord(NameOpen + name + rest)
            == match ParseSizePart(rest)
               case None => None
               case Some(p) => Some(Fields(name, p.0, p.1))
  {
    var t := name + rest;
    var s := NameOpen + t;
    assert NameOpen + name + rest == s;
    assert s[..|NameOpen|] == NameOpen;
    assert s[|NameOpen|..] == t;
    assert forall i :: 0 <= i < |name| ==> t[i] == name[i];
    FirstIndex(t, '"', |name|);
    assert t[|name|..] == rest;
    assert t[..|name|] == name;
  }

  /** Reading a record back gives the fields it was written from, provided
      the name holds no double quote. */
  lemma RecordRoundTrip(name: string, size: nat, imports: string)
    requires '"' !in name
    ensures ParseRecord(Record(name, size, imports)) == Some(Fields(name, size, imports))
  {
    var d := Decimal(size);
    var rest := SizeOpen + (d + (ImportsOpen + imports + RecordClose));
    assert Record(name, size, imports) == NameOpen + name + rest;
    NamePartRoundTrip(name, rest);
    SizePartRoundTrip(d, imports);
    DecimalRoundTrip(size);
  }
}
