/** Byte-string helpers shared by the fingerprint parsers: splitting, joining and unsigned numbers.
    Go strings are byte strings; a `char` here stands for one byte. */
module Text {

  datatype Option<+T> = None | Some(value: T)

  /** A 16-bit wire code point. */
  type U16 = n: nat | n < 0x1_0000

  const TWO32: nat := 0x1_0000_0000

  /** `strings.Split` with a one-byte separator: always at least one part. */
  function Split(s: string, sep: char): (parts: seq<string>)
    ensures |parts| >= 1
  {
    if s == "" then [""]
    else
      var rest := Split(s[1..], sep);
      if s[0] == sep then [""] + rest else [[s[0]] + rest[0]] + rest[1..]
  }

  /** `strings.Join` with a one-byte separator. */
  function Join(parts: seq<string>, sep: char): (s: string)
  {
    if parts == [] then ""
    else if |parts| == 1 then parts[0]
    else parts[0] + [sep] + Join(parts[1..], sep)
  }

  /** No part mentions the separator. */
  predicate Clean(parts: seq<string>, sep: char) {
    forall i :: 0 <= i < |parts| ==> sep !in parts[i]
  }

  lemma {:induction false} SplitIsClean(s: string, sep: char)
    ensures Clean(Split(s, sep), sep)
    decreases |s|
  {
    if s != "" {
      SplitIsClean(s[1..], sep);
    }
  }

  /** Parts only contain characters of the string. */
  lemma {:induction false} SplitAvoids(s: string, sep: char, c: char)
    requires c !in s
    ensures Clean(Split(s, sep), c)
    decreases |s|
  {
    if s != "" {
      SplitAvoids(s[1..], sep, c);
    }
  }

  /** Splitting loses nothing. */
  lemma {:induction false} JoinOfSplit(s: string, sep: char)
    ensures Join(Split(s, sep), sep) == s
    decreases |s|
  {
    if s != "" {
      JoinOfSplit(s[1..], sep);
      var rest := Split(s[1..], sep);
      var parts := Split(s, sep);
      if s[0] == sep {
        assert parts[1..] == rest;
      } else if |rest| > 1 {
        assert parts[1..] == rest[1..];
        assert s == [s[0]] + s[1..];
      }
    }
  }

  lemma {:induction false} SplitOfClean(s: string, sep: char)
    requires sep !in s
    ensures Split(s, sep) == [s]
    decreases |s|
  {
    if s != "" {
      SplitOfClean(s[1..], sep);
      assert s == [s[0]] + s[1..];
    }
  }

  lemma {:induction false} SplitAtSeparator(s: string, rest: string, sep: char)
    requires sep !in s
    ensures Split(s + [sep] + rest, sep) == [s] + Split(rest, sep)
    decreases |s|
  {
    var t := s + [sep] + rest;
    if s == "" {
      assert t[1..] == rest;
    } else {
      SplitAtSeparator(s[1..], rest, sep);
      assert t[1..] == s[1..] + [sep] + rest;
      assert [s[0]] + s[1..] == s;
      assert ([s[1..]] + Split(rest, sep))[1..] == Split(rest, sep);
    }
  }

  /** Splitting recovers the parts exactly when they are non-empty and free of the separator. */
  lemma {:induction false} SplitOfJoin(parts: seq<string>, sep: char)
    requires parts != [] && Clean(parts, sep)
    ensures Split(Join(parts, sep), sep) == parts
    decreases |parts|
  {
    if |parts| == 1 {
      SplitOfClean(parts[0], sep);
    } else {
      SplitOfJoin(parts[1..], sep);
      SplitAtSeparator(parts[0], Join(parts[1..], sep), sep);
    }
  }

  lemma {:induction false} JoinAvoids(parts: seq<string>, sep: char, c: char)
    requires c != sep && Clean(parts, c)
    ensures c !in Join(parts, sep)
    decreases |parts|
  {
    if |parts| > 1 {
      assert Clean(parts[1..], c);
      JoinAvoids(parts[1..], sep, c);
    }
  }

  // ---- unsigned numbers -------------------------------------------------

  function DigitValue(c: char): Option<nat> {
    if '0' <= c <= '9' then Some((c - '0') as int)
    else if 'a' <= c <= 'f' then Some((c - 'a') as int + 10)
    else if 'A' <= c <= 'F' then Some((c - 'A') as int + 10)
    else None
  }

  predicate IsDigit(c: char, base: nat) {
    DigitValue(c).Some? && DigitValue(c).value < base
  }

  predicate AllDigits(s: string, base: nat) {
    forall i :: 0 <= i < |s| ==> IsDigit(s[i], base)
  }

  function Value(s: string, base: nat): nat
    requires AllDigits(s, base)
  {
    if s == "" then 0
    else Value(s[..|s| - 1], base) * base + DigitValue(s[|s| - 1]).value
  }

  /** `strconv.ParseUint(s, base, bits)` with `limit == 2^bits`; every failure is None. */
  function ParseUint(s: string, base: nat, limit: nat): (r: Option<nat>)
    ensures r.Some? ==> r.value < limit
  {
    if s != "" && AllDigits(s, base) && Value(s, base) < limit then Some(Value(s, base)) else None
  }

  const DIGITS: string := "0123456789abcdef"

  /** `fmt.Sprintf("%d", n)`. */
  function Decimal(n: nat): (s: string)
    ensures s != "" && AllDigits(s, 10) && Value(s, 10) == n
  {
    if n < 10 then
      assert [DIGITS[n]][..0] == "";
      [DIGITS[n]]
    else
      var s := Decimal(n / 10) + [DIGITS[n % 10]];
      assert s[..|s| - 1] == Decimal(n / 10);
      s
  }

  /** `%04x`. */
  function Hex4(n: U16): (s: string)
    ensures |s| == 4 && AllDigits(s, 16) && Value(s, 16) == n
  {
    var high, low := n / 256, n % 256;
    Hex4Value(high / 16, high % 16, low / 16, low % 16);
    [DIGITS[high / 16], DIGITS[high % 16], DIGITS[low / 16], DIGITS[low % 16]]
  }

  lemma Hex4Value(a: nat, b: nat, c: nat, d: nat)
    requires a < 16 && b < 16 && c < 16 && d < 16
    ensures AllDigits([DIGITS[a], DIGITS[b], DIGITS[c], DIGITS[d]], 16)
    ensures Value([DIGITS[a], DIGITS[b], DIGITS[c], DIGITS[d]], 16) == ((a * 16 + b) * 16 + c) * 16 + d
  {
    HexDigit(a); HexDigit(b); HexDigit(c); HexDigit(d);
    var s := [DIGITS[a], DIGITS[b], DIGITS[c], DIGITS[d]];
    assert s[..3][..2] == s[..2] && s[..2][..1] == s[..1] && s[..1][..0] == "";
    assert Value(s[..1], 16) == a;
    assert Value(s[..2], 16) == a * 16 + b;
    assert Value(s[..3], 16) == (a * 16 + b) * 16 + c;
  }

  lemma HexDigit(a: nat)
    requires a < 16
    ensures DigitValue(DIGITS[a]) == Some(a) && '0' <= DIGITS[a] <= 'f'
  {
    assert a in {0, 1, 2, 3, 4, 5, 6, 7, 8, 9, 10, 11, 12, 13, 14, 15};
  }

  lemma ParseOfDecimal(n: nat, limit: nat)
    ensures ParseUint(Decimal(n), 10, limit) == if n < limit then Some(n) else None
  {
  }

  /** A digit string contains none of the characters used as separators. */
  lemma DigitsAvoid(s: string, base: nat, c: char)
    requires AllDigits(s, base) && DigitValue(c).None?
    ensures c !in s
  {
  }

  /** `strings.Contains`. */
  predicate Contains(s: string, sub: string) {
    sub <= s || (s != "" && Contains(s[1..], sub))
  }

  /** The stretch of `s` at `i` is `sub`. */
  predicate StandsAt(s: string, i: int, sub: string) {
    0 <= i <= |s| - |sub| && s[i..i + |sub|] == sub
  }

  lemma StandsShift(s: string, i: nat, sub: string)
    ensures StandsAt(s, 0, sub) <==> sub <= s
    ensures s != "" ==> (StandsAt(s, i + 1, sub) <==> StandsAt(s[1..], i, sub))
    ensures s == "" ==> !StandsAt(s, i + 1, sub)
  {
    if sub <= s {
      assert s[0..0 + |sub|] == sub;
    }
    if s != "" && i + 1 <= |s| - |sub| {
      assert s[i + 1..i + 1 + |sub|] == s[1..][i..i + |sub|];
    }
  }

  lemma ContainsUnfold(s: string, sub: string)
    ensures Contains(s, sub) <==> sub <= s || (s != "" && Contains(s[1..], sub))
  {
  }

  lemma {:induction false} ContainsIff(s: string, sub: string)
    ensures Contains(s, sub) <==> exists i :: StandsAt(s, i, sub)
    decreases |s|
  {
    hide Contains, StandsAt;
    ContainsUnfold(s, sub);
    StandsShift(s, 0, sub);
    if s != "" {
      ContainsIff(s[1..], sub);
    }
    forall i | StandsAt(s, i, sub)
      ensures Contains(s, sub)
    {
      StandsRange(s, i, sub);
      if i > 0 {
        StandsShift(s, i - 1, sub);
      }
    }
    if s != "" && Contains(s[1..], sub) {
      var i :| StandsAt(s[1..], i, sub);
      StandsRange(s[1..], i, sub);
      StandsShift(s, i, sub);
    }
  }

  lemma StandsRange(s: string, i: int, sub: string)
    requires StandsAt(s, i, sub)
    ensures i >= 0
  {
  }

  /** `strings.TrimPrefix`. */
  function TrimPrefix(s: string, prefix: string): string {
    if prefix <= s then s[|prefix|..] else s
  }

  /** Every field of a separated list parsed as an unsigned number below `limit`; None if one fails. */
  function ParseAll(fields: seq<string>, base: nat, limit: nat): (r: Option<seq<nat>>)
    ensures r.Some? ==> |r.value| == |fields| && forall i :: 0 <= i < |fields| ==> r.value[i] < limit
  {
    if fields == [] then Some([])
    else
      var head, rest := ParseUint(fields[0], base, limit), ParseAll(fields[1..], base, limit);
      if head.None? || rest.None? then None else Some([head.value] + rest.value)
  }

  lemma {:induction false} ParseAllSnoc(fields: seq<string>, f: string, base: nat, limit: nat)
    ensures ParseAll(fields + [f], base, limit) ==
            if ParseAll(fields, base, limit).None? || ParseUint(f, base, limit).None? then None
            else Some(ParseAll(fields, base, limit).value + [ParseUint(f, base, limit).value])
    decreases |fields|
  {
    if fields == [] {
      assert fields + [f] == [f] && [f][1..] == [];
      var v := ParseUint(f, base, limit);
      if v.Some? {
        assert ParseAll([f], base, limit) == Some([v.value] + []);
        assert ParseAll(fields, base, limit).value + [v.value] == [v.value] + [];
      }
    } else {
      ParseAllSnoc(fields[1..], f, base, limit);
      assert (fields + [f])[1..] == fields[1..] + [f];
      var rest, last := ParseAll(fields[1..], base, limit), ParseUint(f, base, limit);
      var head := ParseUint(fields[0], base, limit);
      if head.Some? && rest.Some? && last.Some? {
        assert [head.value] + (rest.value + [last.value]) == ([head.value] + rest.value) + [last.value];
      }
    }
  }

  lemma ParseAllCons(f: string, v: nat, fields: seq<string>, vs: seq<nat>, base: nat, limit: nat)
    requires ParseUint(f, base, limit) == Some(v) && ParseAll(fields, base, limit) == Some(vs)
    ensures ParseAll([f] + fields, base, limit) == Some([v] + vs)
  {
    assert ([f] + fields)[1..] == fields;
  }

  /** Once a field fails, the whole list fails. */
  lemma {:induction false} ParseAllFails(fields: seq<string>, i: nat, base: nat, limit: nat)
    requires i < |fields| && ParseUint(fields[i], base, limit).None?
    ensures ParseAll(fields, base, limit).None?
    decreases i
  {
    if i > 0 {
      ParseAllFails(fields[1..], i - 1, base, limit);
    }
  }

  lemma ParseAllNone(limit: nat)
    ensures ParseAll([], 10, limit) == Some([])
  {
  }

  lemma {:induction false} DecimalFieldsParse(ids: seq<nat>, limit: nat)
    requires forall i :: 0 <= i < |ids| ==> ids[i] < limit
    ensures ParseAll(DecimalFields(ids), 10, limit) == Some(ids)
    decreases |ids|
  {
    hide ParseUint, Decimal, ParseAll;
    ParseAllNone(limit);
    if ids != [] {
      DecimalFieldsParse(ids[1..], limit);
      ParseOfDecimal(ids[0], limit);
      ParseAllCons(Decimal(ids[0]), ids[0], DecimalFields(ids[1..]), ids[1..], 10, limit);
      assert ids == [ids[0]] + ids[1..];
    }
  }

  function DecimalFields(ids: seq<nat>): (r: seq<string>)
    ensures |r| == |ids| && forall i :: 0 <= i < |ids| ==> r[i] == Decimal(ids[i])
  {
    if ids == [] then [] else [Decimal(ids[0])] + DecimalFields(ids[1..])
  }

  lemma DecimalFieldsClean(ids: seq<nat>, c: char)
    requires DigitValue(c).None?
    ensures Clean(DecimalFields(ids), c)
  {
    forall i | 0 <= i < |ids| ensures c !in DecimalFields(ids)[i] {
      DigitsAvoid(Decimal(ids[i]), 10, c);
    }
  }
}
