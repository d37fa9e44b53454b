/** The raw JA4 fingerprint: golang/utils.go, ParseJA4RString and JA4RStringToSpec. */
module Ja4r {
  import opened Text

  // ---- the string form ------------------------------------------------------

  /** JA4RComponents. */
  datatype Components = Components(
    version: string, sni: char, cipherCount: int, extCount: int, alpn: string,
    ciphers: seq<U16>, exts: seq<U16>, sigs: seq<U16>)

  /** A JA4_r fingerprint as its specification prints it. */
  datatype Fingerprint = Fingerprint(
    version: string, sni: bool, cipherCount: nat, extCount: nat, alpn: string,
    ciphers: seq<U16>, exts: seq<U16>, sigs: seq<U16>)

  /** `strconv.Atoi` on the one or two bytes the parser passes it. */
  function Atoi(s: string): Option<int> {
    if s != "" && (s[0] == '+' || s[0] == '-') then
      match ParseUint(s[1..], 10, 0x8000_0000)
      case Some(n) => var k: int := n; Some(if s[0] == '-' then -k else k)
      case None => None
    else
      match ParseUint(s, 10, 0x8000_0000)
      case Some(n) => Some(n)
      case None => None
  }

  /** Extension count and ALPN code: two digits when what follows is empty or starts with 'h',
      else one digit. */
  function ParseExtCount(rem: string): Option<(int, string)> {
    if |rem| >= 2 && Atoi(rem[..2]).Some? && (|rem| == 2 || rem[2] == 'h') then
      Some((Atoi(rem[..2]).value, rem[2..]))
    else if |rem| >= 1 && Atoi(rem[..1]).Some? then
      Some((Atoi(rem[..1]).value, rem[1..]))
    else None
  }

  function TrimAll(fields: seq<string>): (r: seq<string>)
    ensures |r| == |fields|
    ensures forall i :: 0 <= i < |fields| ==> r[i] == TrimPrefix(fields[i], "0x")
  {
    if fields == [] then [] else [TrimPrefix(fields[0], "0x")] + TrimAll(fields[1..])
  }

  /** A comma-separated list of hex code points, each with an optional 0x prefix. */
  function ParseHexList(s: string): Option<seq<U16>> {
    if s == "" then Some([]) else ParseAll(TrimAll(Split(s, ',')), 16, 0x1_0000)
  }

  function ParseJa4r(s: string): Option<Components> {
    var parts := Split(s, '_');
    if |parts| < 3 then None
    else
      var a := parts[0];
      if |a| < 6 || a[0] != 't' || (a[3] != 'd' && a[3] != 'i') then None
      else
        var cc, ec := Atoi(a[4..6]), ParseExtCount(a[6..]);
        var ciphers, exts := ParseHexList(parts[1]), ParseHexList(parts[2]);
        var sigs := if |parts| > 3 then ParseHexList(parts[3]) else Some([]);
        if cc.None? || ec.None? || ciphers.None? || exts.None? || sigs.None? then None
        else Some(Components(a[..3], a[3], cc.value, ec.value.0, ec.value.1, ciphers.value, exts.value, sigs.value))
  }

  /** The list loop of the parser. */
  method ParseHexFields(s: string) returns (r: Option<seq<U16>>)
    ensures r == ParseHexList(s)
  {
    var out: seq<U16> := [];
    if s != "" {
      var fields := Split(s, ',');
      ghost var trimmed := TrimAll(fields);
      for i := 0 to |fields|
        invariant ParseAll(trimmed[..i], 16, 0x1_0000) == Some(out)
      {
        var v := ParseUint(TrimPrefix(fields[i], "0x"), 16, 0x1_0000);
        if v.None? {
          ParseAllFails(trimmed, i, 16, 0x1_0000);
          return None;
        }
        assert trimmed[..i + 1] == trimmed[..i] + [trimmed[i]];
        ParseAllSnoc(trimmed[..i], trimmed[i], 16, 0x1_0000);
        out := out + [v.value];
      }
      assert trimmed[..|fields|] == trimmed;
    }
    r := Some(out);
  }

  /** `ParseJA4RString`. */
  method ParseJa4rString(s: string) returns (r: Option<Components>)
    ensures r == ParseJa4r(s)
  {
    var parts := Split(s, '_');
    if |parts| < 3 { return None; }
    var a := parts[0];
    if |a| < 6 || a[0] != 't' { return None; }
    if a[3] != 'd' && a[3] != 'i' { return None; }
    var cc := Atoi(a[4..6]);
    if cc.None? { return None; }
    var ec := ParseExtCount(a[6..]);
    if ec.None? { return None; }
    var ciphers := ParseHexFields(parts[1]);
    if ciphers.None? { return None; }
    var exts := ParseHexFields(parts[2]);
    if exts.None? { return None; }
    var sigs: Option<seq<U16>> := Some([]);
    if |parts| > 3 {
      sigs := ParseHexFields(parts[3]);
      if sigs.None? { return None; }
    }
    r := Some(Components(a[..3], a[3], cc.value, ec.value.0, ec.value.1, ciphers.value, exts.value, sigs.value));
  }

  function TwoDigits(n: nat): (s: string)
    requires n < 100
    ensures |s| == 2
  {
    [DIGITS[n / 10], DIGITS[n % 10]]
  }

  function HexFields(ids: seq<U16>): (r: seq<string>)
    ensures |r| == |ids| && forall i :: 0 <= i < |ids| ==> r[i] == Hex4(ids[i])
  {
    if ids == [] then [] else [Hex4(ids[0])] + HexFields(ids[1..])
  }

  function PrintHexList(ids: seq<U16>): string {
    Join(HexFields(ids), ',')
  }

  /** The raw JA4 string of a fingerprint (FoxIO JA4 specification, raw form). */
  function Print(f: Fingerprint): string
    requires f.cipherCount < 100 && f.extCount < 100
  {
    Join([Header(f), PrintHexList(f.ciphers), PrintHexList(f.exts)]
         + (if f.sigs == [] then [] else [PrintHexList(f.sigs)]), '_')
  }

  function Header(f: Fingerprint): string
    requires f.cipherCount < 100 && f.extCount < 100
  {
    "t" + f.version + (if f.sni then "d" else "i") + TwoDigits(f.cipherCount) + TwoDigits(f.extCount) + f.alpn
  }

  lemma AtoiOfTwoDigits(n: nat)
    requires n < 100
    ensures Atoi(TwoDigits(n)) == Some(n)
    ensures '_' !in TwoDigits(n)
  {
    HexDigit(n / 10);
    HexDigit(n % 10);
    var s := TwoDigits(n);
    assert s[..1] == [DIGITS[n / 10]] && s[..1][..0] == "";
    assert Value(s[..1], 10) == n / 10;
    assert Value(s, 10) == Value(s[..1], 10) * 10 + n % 10;
  }

  lemma HexFieldClean(v: U16)
    ensures TrimPrefix(Hex4(v), "0x") == Hex4(v) && ',' !in Hex4(v) && '_' !in Hex4(v)
    ensures ParseUint(Hex4(v), 16, 0x1_0000) == Some(v)
  {
    assert forall i :: 0 <= i < 4 ==> IsDigit(Hex4(v)[i], 16);
    assert Hex4(v)[1] != 'x';
  }

  lemma {:induction false} ParseAllHex(ids: seq<U16>)
    ensures ParseAll(HexFields(ids), 16, 0x1_0000) == Some(ids)
    decreases |ids|
  {
    hide Hex4, ParseUint, TrimPrefix;
    if ids != [] {
      HexFieldClean(ids[0]);
      ParseAllHex(ids[1..]);
      ParseAllCons(Hex4(ids[0]), ids[0], HexFields(ids[1..]), ids[1..], 16, 0x1_0000);
      assert ids == [ids[0]] + ids[1..];
    }
  }

  lemma HexFieldsClean(ids: seq<U16>)
    ensures TrimAll(HexFields(ids)) == HexFields(ids)
    ensures Clean(HexFields(ids), ',') && Clean(HexFields(ids), '_')
  {
    hide Hex4;
    forall i | 0 <= i < |ids|
      ensures TrimPrefix(HexFields(ids)[i], "0x") == HexFields(ids)[i] && ',' !in HexFields(ids)[i] &&
              '_' !in HexFields(ids)[i]
    {
      HexFieldClean(ids[i]);
    }
  }

  lemma HexListRoundTrip(ids: seq<U16>)
    ensures ParseHexList(PrintHexList(ids)) == Some(ids)
    ensures '_' !in PrintHexList(ids)
  {
    ParseAllHex(ids);
    HexFieldsClean(ids);
    JoinAvoids(HexFields(ids), ',', '_');
    if ids != [] {
      SplitOfJoin(HexFields(ids), ',');
      assert Split(PrintHexList(ids), ',')[0] == Hex4(ids[0]) != "";
    }
  }

  /** What the header must look like for the two-digit reading to be taken. */
  predicate Printable(f: Fingerprint) {
    && f.cipherCount < 100 && f.extCount < 100
    && |f.version| == 2 && '_' !in f.version
    && '_' !in f.alpn && (f.alpn == "" || f.alpn[0] == 'h')
  }

  function ComponentsOf(f: Fingerprint): Components {
    Components("t" + f.version, if f.sni then 'd' else 'i', f.cipherCount, f.extCount, f.alpn, f.ciphers, f.exts,
        f.sigs)
  }

  lemma HeaderRoundTrip(f: Fingerprint)
    requires Printable(f)
    ensures var a := Header(f);
            && '_' !in a && |a| >= 8 && a[0] == 't' && a[..3] == "t" + f.version
            && a[3] == (if f.sni then 'd' else 'i')
            && Atoi(a[4..6]) == Some(f.cipherCount)
            && ParseExtCount(a[6..]) == Some((f.extCount, f.alpn))
  {
    hide TwoDigits, Atoi;
    var a := Header(f);
    AtoiOfTwoDigits(f.cipherCount);
    AtoiOfTwoDigits(f.extCount);
    assert a[4..6] == TwoDigits(f.cipherCount);
    assert a[6..] == TwoDigits(f.extCount) + f.alpn;
    assert a[6..][..2] == TwoDigits(f.extCount);
    assert a[6..][2..] == f.alpn;
  }

  /** Parsing a printed JA4_r gives back every component. */
  lemma ParseOfPrint(f: Fingerprint)
    requires Printable(f)
    ensures ParseJa4r(Print(f)) == Some(ComponentsOf(f))
  {
    hide Header, PrintHexList, Join, Split, ParseHexList, ParseExtCount, Atoi;
    HeaderRoundTrip(f);
    HexListRoundTrip(f.ciphers);
    HexListRoundTrip(f.exts);
    HexListRoundTrip(f.sigs);
    var parts := [Header(f), PrintHexList(f.ciphers), PrintHexList(f.exts)]
                 + (if f.sigs == [] then [] else [PrintHexList(f.sigs)]);
    assert Clean(parts, '_');
    SplitOfJoin(parts, '_');
  }

  /** Different fingerprints never share a printed form. */
  lemma PrintInjective(f: Fingerprint, g: Fingerprint)
    requires Printable(f) && Printable(g) && Print(f) == Print(g)
    ensures f == g
  {
    ParseOfPrint(f);
    ParseOfPrint(g);
    assert ("t" + f.version)[1..] == f.version && ("t" + g.version)[1..] == g.version;
  }

  // ---- what else the parser reads ----------------------------------------------------------------------------

  lemma AtoiOfOneDigit(n: nat)
    requires n < 10
    ensures Atoi([DIGITS[n]]) == Some(n)
  {
    HexDigit(n);
    var s := [DIGITS[n]];
    assert s[..0] == "" && s[0] != '-' && s[0] != '+';
    assert Value(s, 10) == Value(s[..0], 10) * 10 + n;
  }

  /** A count of one digit in front of no digit: `t12d128h2` counts 8 extensions. */
  lemma OneDigitCount(n: nat, alpn: string)
    requires n < 10 && (alpn == "" || !IsDigit(alpn[0], 10))
    ensures ParseExtCount([DIGITS[n]] + alpn) == Some((n, alpn))
  {
    var rem := [DIGITS[n]] + alpn;
    AtoiOfOneDigit(n);
    assert rem[..1] == [DIGITS[n]] && rem[1..] == alpn;
    if |rem| >= 2 {
      HexDigit(n);
      assert rem[..2] == [DIGITS[n]] + [alpn[0]] && rem[..2][1] == alpn[0];
      assert Atoi(rem[..2]) == None;
    }
  }

  /** Two digits in front of anything but an `h` are one digit of count; the second begins the ALPN code. */
  lemma TwoDigitsBeforeOther(n: nat, alpn: string)
    requires n < 100 && alpn != "" && alpn[0] != 'h'
    ensures ParseExtCount(TwoDigits(n) + alpn) == Some(((n / 10) as int, [DIGITS[n % 10]] + alpn))
  {
    var rem := TwoDigits(n) + alpn;
    AtoiOfOneDigit(n / 10);
    assert rem[..1] == [DIGITS[n / 10]] && rem[1..] == [DIGITS[n % 10]] + alpn;
    assert rem[2] == alpn[0];
  }

  /** A `0x` in front of a code point changes nothing. */
  lemma PrefixOptional(v: U16)
    ensures TrimPrefix("0x" + Hex4(v), "0x") == Hex4(v) == TrimPrefix(Hex4(v), "0x")
    ensures ParseHexList("0x" + Hex4(v)) == Some([v]) == ParseHexList(Hex4(v))
  {
    hide Hex4, ParseUint;
    HexFieldClean(v);
    assert ',' !in "0x" + Hex4(v);
    SplitOfClean("0x" + Hex4(v), ',');
    SplitOfClean(Hex4(v), ',');
    ParseAllCons(Hex4(v), v, [], [], 16, 0x1_0000);
    assert Hex4(v) != "" by { HexLength(v); }
    assert [Hex4(v)] + [] == [Hex4(v)] && [v] + [] == [v];
    OneField("0x" + Hex4(v));
    OneField(Hex4(v));
  }

  lemma HexLength(v: U16)
    ensures |Hex4(v)| == 4
  {
  }

  lemma OneField(s: string)
    ensures TrimAll([s]) == [TrimPrefix(s, "0x")]
  {
  }

  /** What every accepted string looks like, and where its components come from. */
  lemma AcceptedShape(s: string)
    requires ParseJa4r(s).Some?
    ensures var parts, c := Split(s, '_'), ParseJa4r(s).value;
            && |parts| >= 3 && |parts[0]| >= 7 && parts[0][0] == 't' && (parts[0][3] == 'd' || parts[0][3] == 'i')
            && c.version == parts[0][..3] && c.sni == parts[0][3] && Some(c.cipherCount) == Atoi(parts[0][4..6])
            && Some(c.ciphers) == ParseHexList(parts[1]) && Some(c.exts) == ParseHexList(parts[2])
            && Some(c.sigs) == (if |parts| == 3 then Some([]) else ParseHexList(parts[3]))
            && |parts[0]| - 6 - 2 <= |c.alpn| < |parts[0]| - 6 && c.alpn == parts[0][|parts[0]| - |c.alpn|..]
  {
    hide ParseHexList, Split, Atoi;
    var a := Split(s, '_')[0];
    var rem := a[6..];
    assert |rem| >= 2 ==> rem[2..] == a[8..];
    assert |rem| >= 1 ==> rem[1..] == a[7..];
  }
}
