/** JA3 to ClientHello: golang/utils.go, StringToSpec, createTlsVersion and genMap. */
module Ja3 {
  import opened Text
  import opened StableSort
  import opened ClientHello

  datatype Result = Ok(hello: Hello) | BadNumber | UnknownExtension | TooFewFields

  function ToLower(s: string): string {
    if s == "" then ""
    else [if 'A' <= s[0] <= 'Z' then ((s[0] - 'A') as int + 'a' as int) as char else s[0]] + ToLower(s[1..])
  }

  /** parseUserAgent: everything that is not Firefox counts as Chrome. */
  predicate IsChrome(userAgent: string) {
    Contains(ToLower(userAgent), "chrome") || !Contains(ToLower(userAgent), "firefox")
  }

  /** isTLS13CompatibleCurve: the NamedGroups of section 4.2.7 of RFC 8446 and the hybrid groups. */
  predicate Compatible(g: U16) {
    23 <= g <= 25 || g == 29 || g == 30 || 256 <= g <= 260 || 4587 <= g <= 4589
  }

  const COMPATIBLE: U16 -> bool := (g: U16) => Compatible(g)

  /** The dash-separated fields of an optional list: none for the empty string. */
  function OptionalFields(s: string): seq<string> {
    if s == "" then [] else Split(s, '-')
  }

  function GreaseIf(chrome: bool): seq<U16> {
    if chrome then [GREASE] else []
  }

  /** TLS 1.3 skips groups it does not know. */
  function Filtered(tls13: bool, groups: seq<U16>): seq<U16> {
    if tls13 then Keep(groups, COMPATIBLE) else groups
  }

  /** targetCurves: GREASE for Chrome, the listed groups (filtered for TLS 1.3), the fallback pair. */
  function TargetGroups(chrome: bool, tls13: bool, groups: seq<U16>): seq<U16> {
    var t := GreaseIf(chrome) + Filtered(tls13, groups);
    if tls13 && t == [] then [X25519, P256] else t
  }

  /** The shares genMap and the user-agent branch start with. */
  function BaseShares(chrome: bool): seq<U16> {
    [GREASE, X25519] + (if chrome then [] else [P256])
  }

  /** An X25519MLKEM768 share goes right behind the leading GREASE shares. */
  function InsertHybrid(shares: seq<U16>): seq<U16> {
    if shares != [] && shares[0] == GREASE then [GREASE] + InsertHybrid(shares[1..])
    else [X25519MLKEM768] + shares
  }

  function KeyShares(chrome: bool, target: seq<U16>): seq<U16> {
    if X25519MLKEM768 in target then InsertHybrid(BaseShares(chrome)) else BaseShares(chrome)
  }

  /** createTlsVersion with GREASE: (max, min, extension); an unknown version leaves the zero values. */
  function VersionSpec(ver: nat): (nat, nat, Ext) {
    if ver == 772 then (772, 771, SupportedVersions([GREASE, VERSION_TLS13, VERSION_TLS12]))
    else if ver == 771 then (771, 770, SupportedVersions([GREASE, VERSION_TLS12, VERSION_TLS11]))
    else if ver == 770 then (770, 769, SupportedVersions([GREASE, VERSION_TLS11, VERSION_TLS10]))
    else (0, 0, Nil)
  }

  /** The keys of the extension map once 10, 11 and 43 are set. */
  predicate Known(id: U16) {
    || id == 0 || id == 5 || id == 10 || id == 11 || id == 13 || 16 <= id <= 18 || 21 <= id <= 24
    || id == 27 || id == 28 || id == 34 || id == 35 || id == 41 || 43 <= id <= 45 || 49 <= id <= 51
    || id == 57 || id == 13172 || id == 17513 || id == 17613 || id == 30032 || id == 51764
    || id == 65037 || id == 65281
  }

  const JA3_SIGS: seq<U16> :=
    [0x0403, 0x0503, 0x0603, 0x0804, 0x0805, 0x0806, 0x0401, 0x0501, 0x0601, 0x0203, 0x0201]

  /** extMap after every assignment, by id. */
  function ExtOf(id: U16, shares: seq<U16>, target: seq<U16>, points: seq<nat>, forceHttp1: bool, versions: Ext): Ext {
    if id == 0 then Sni("")
    else if id == 10 then SupportedGroups(target)
    else if id == 11 then PointFormats(points)
    else if id == 13 then SignatureAlgorithms(JA3_SIGS)
    else if id == 16 then Alpn(if forceHttp1 then ["http/1.1"] else ["h2", "http/1.1"])
    else if id == 27 then CompressCert([2])
    else if id == 43 then versions
    else if id == 51 then KeyShare(shares)
    else Fixed(id)
  }

  /** The map keys are canonical decimals, so a field names an extension only in that spelling. */
  function KeyOf(field: string): Option<U16> {
    match ParseUint(field, 10, 0x1_0000)
    case Some(id) => if Decimal(id) == field && Known(id) then Some(id) else None
    case None => None
  }

  /** The extension loop; Chrome puts a GREASE extension in front of padding (21). */
  function BuildExts(fields: seq<string>, chrome: bool, ext: U16 -> Ext): Option<seq<Ext>> {
    if fields == [] then Some(if chrome then [GreaseExt] else [])
    else
      var last := |fields| - 1;
      var init, id := BuildExts(fields[..last], chrome, ext), KeyOf(fields[last]);
      if init.None? || id.None? then None
      else Some(init.value + (if id.value == 21 && chrome then [GreaseExt] else []) + [ext(id.value)])
  }

  function ExtTable(shares: seq<U16>, target: seq<U16>, points: seq<nat>, forceHttp1: bool, versions: Ext): U16 -> Ext {
    (id: U16) => ExtOf(id, shares, target, points, forceHttp1, versions)
  }

  /** The second half: version extension, extension list, cipher list. */
  function Assemble(chrome: bool, ver: nat, target: seq<U16>, points: seq<nat>, forceHttp1: bool,
                    extFields: seq<string>, cipherFields: seq<string>): Result {
    var (max, min, versions) := VersionSpec(ver);
    var table := ExtTable(KeyShares(chrome, target), target, points, forceHttp1, versions);
    var exts, ciphers := BuildExts(extFields, chrome, table), ParseAll(cipherFields, 10, 0x1_0000);
    if exts.None? then UnknownExtension
    else if ciphers.None? then BadNumber
    else Ok(Hello(min, max, GreaseIf(chrome) + ciphers.value, exts.value))
  }

  /** StringToSpec. Fewer than five fields make the source index out of range. */
  function StringToSpec(ja3: string, userAgent: string, forceHttp1: bool): Result {
    var tokens := Split(ja3, ',');
    if |tokens| < 5 then TooFewFields
    else
      var chrome, ver := IsChrome(userAgent), ParseUint(tokens[0], 10, 0x1_0000);
      var groups := ParseAll(OptionalFields(tokens[3]), 10, 0x1_0000);
      var points := ParseAll(OptionalFields(tokens[4]), 10, 0x100);
      if groups.None? || points.None? || ver.None? then BadNumber
      else
        Assemble(chrome, ver.value, TargetGroups(chrome, ver == Some(772), groups.value), points.value, forceHttp1,
                 Split(tokens[2], '-'), Split(tokens[1], '-'))
  }

  // ---- the loops of StringToSpec ------------------------------------------------

  method ParseFields(fields: seq<string>, limit: nat) returns (r: Option<seq<nat>>)
    ensures r == ParseAll(fields, 10, limit)
  {
    var out: seq<nat> := [];
    for i := 0 to |fields|
      invariant ParseAll(fields[..i], 10, limit) == Some(out)
    {
      var v := ParseUint(fields[i], 10, limit);
      ParsePrefix(fields, i, limit, out);
      if v.None? {
        return None;
      }
      out := out + [v.value];
    }
    assert fields[..|fields|] == fields;
    r := Some(out);
  }

  lemma FilteredSnoc(tls13: bool, s: seq<U16>, x: U16)
    ensures Filtered(tls13, s + [x]) == Filtered(tls13, s) + (if tls13 && !Compatible(x) then [] else [x])
  {
    KeepConcat(s, [x], COMPATIBLE);
    assert [x][1..] == [];
  }

  lemma ParsePrefix(fields: seq<string>, i: nat, limit: nat, seen: seq<nat>)
    requires i < |fields| && ParseAll(fields[..i], 10, limit) == Some(seen)
    ensures ParseUint(fields[i], 10, limit).None? ==> ParseAll(fields, 10, limit).None?
    ensures ParseUint(fields[i], 10, limit).Some? ==>
              ParseAll(fields[..i + 1], 10, limit) == Some(seen + [ParseUint(fields[i], 10, limit).value])
  {
    assert fields[..i + 1] == fields[..i] + [fields[i]];
    ParseAllSnoc(fields[..i], fields[i], 10, limit);
    if ParseUint(fields[i], 10, limit).None? {
      ParseAllFails(fields, i, 10, limit);
    }
  }

  /** `target` is what the group loop has after `i` fields. */
  ghost predicate GroupsSoFar(fields: seq<string>, i: nat, chrome: bool, tls13: bool, target: seq<U16>) {
    && i <= |fields|
    && ParseAll(fields[..i], 10, 0x1_0000).Some?
    && target == GreaseIf(chrome) + Filtered(tls13, ParseAll(fields[..i], 10, 0x1_0000).value)
  }

  lemma GroupsStep(fields: seq<string>, i: nat, chrome: bool, tls13: bool, target: seq<U16>, g: U16)
    requires GroupsSoFar(fields, i, chrome, tls13, target) && i < |fields|
    requires ParseUint(fields[i], 10, 0x1_0000) == Some(g)
    ensures GroupsSoFar(fields, i + 1, chrome, tls13, if tls13 && !Compatible(g) then target else target + [g])
  {
    var seen: seq<U16> := ParseAll(fields[..i], 10, 0x1_0000).value;
    ParsePrefix(fields, i, 0x1_0000, seen);
    FilteredSnoc(tls13, seen, g);
    var head, mid := GreaseIf(chrome), Filtered(tls13, seen);
    assert head + (mid + []) == head + mid && head + (mid + [g]) == (head + mid) + [g];
  }

  /** The group loop: parse, skip what TLS 1.3 does not know, fall back when nothing is left. */
  method CollectGroups(fields: seq<string>, chrome: bool, tls13: bool) returns (r: Option<seq<U16>>)
    ensures ParseAll(fields, 10, 0x1_0000).None? <==> r.None?
    ensures r.Some? ==> r.value == TargetGroups(chrome, tls13, ParseAll(fields, 10, 0x1_0000).value)
  {
    var target := GreaseIf(chrome);
    assert fields[..0] == [] && Filtered(tls13, []) == [];
    for i := 0 to |fields|
      invariant GroupsSoFar(fields, i, chrome, tls13, target)
    {
      var v := ParseUint(fields[i], 10, 0x1_0000);
      if v.None? {
        ParseAllFails(fields, i, 10, 0x1_0000);
        return None;
      }
      GroupsStep(fields, i, chrome, tls13, target, v.value);
      if tls13 && !Compatible(v.value) {
        continue;
      }
      target := target + [v.value];
    }
    assert fields[..|fields|] == fields;
    if tls13 && |target| == 0 {
      target := [X25519, P256];
    }
    r := Some(target);
  }

  /** The key-share patch: skip the leading GREASE shares, splice the hybrid one in. */
  method SpliceHybrid(shares: seq<U16>) returns (out: seq<U16>)
    ensures out == InsertHybrid(shares)
  {
    var i := 0;
    assert shares[..0] + InsertHybrid(shares[0..]) == InsertHybrid(shares);
    while i < |shares| && shares[i] == GREASE
      invariant 0 <= i <= |shares|
      invariant InsertHybrid(shares) == shares[..i] + InsertHybrid(shares[i..])
    {
      assert shares[i..][1..] == shares[i + 1..];
      assert shares[..i + 1] == shares[..i] + [shares[i]];
      i := i + 1;
    }
    out := shares[..i] + [X25519MLKEM768] + shares[i..];
  }

  lemma {:induction false} BuildExtsFails(fields: seq<string>, i: nat, chrome: bool, ext: U16 -> Ext)
    requires i < |fields| && KeyOf(fields[i]).None?
    ensures BuildExts(fields, chrome, ext).None?
    decreases |fields|
  {
    if i < |fields| - 1 {
      BuildExtsFails(fields[..|fields| - 1], i, chrome, ext);
    }
  }

  lemma BuildExtsStep(fields: seq<string>, i: nat, chrome: bool, ext: U16 -> Ext)
    requires i < |fields|
    ensures BuildExts(fields[..i + 1], chrome, ext) ==
            var init, id := BuildExts(fields[..i], chrome, ext), KeyOf(fields[i]);
            if init.None? || id.None? then None
            else Some(init.value + (if id.value == 21 && chrome then [GreaseExt] else []) + [ext(id.value)])
  {
    assert fields[..i + 1][..i] == fields[..i];
  }

  method CollectExts(fields: seq<string>, chrome: bool, ext: U16 -> Ext) returns (r: Option<seq<Ext>>)
    ensures r == BuildExts(fields, chrome, ext)
  {
    var exts: seq<Ext> := if chrome then [GreaseExt] else [];
    for i := 0 to |fields|
      invariant BuildExts(fields[..i], chrome, ext) == Some(exts)
    {
      var id := KeyOf(fields[i]);
      BuildExtsStep(fields, i, chrome, ext);
      if id.None? {
        BuildExtsFails(fields, i, chrome, ext);
        return None;
      }
      assert exts + [] == exts;
      if id.value == 21 && chrome {
        exts := exts + [GreaseExt];
      }
      exts := exts + [ext(id.value)];
    }
    assert fields[..|fields|] == fields;
    r := Some(exts);
  }

  method AssembleHello(chrome: bool, ver: nat, target: seq<U16>, points: seq<nat>, forceHttp1: bool,
                       extFields: seq<string>, cipherFields: seq<string>) returns (r: Result)
    ensures r == Assemble(chrome, ver, target, points, forceHttp1, extFields, cipherFields)
  {
    var shares := BaseShares(chrome);
    if X25519MLKEM768 in target {
      shares := SpliceHybrid(shares);
    }
    var (max, min, versions) := VersionSpec(ver);
    var exts := CollectExts(extFields, chrome, ExtTable(shares, target, points, forceHttp1, versions));
    if exts.None? { return UnknownExtension; }
    var ciphers := ParseFields(cipherFields, 0x1_0000);
    if ciphers.None? { return BadNumber; }
    r := Ok(Hello(min, max, GreaseIf(chrome) + ciphers.value, exts.value));
  }

  /** StringToSpec step by step. */
  method BuildSpec(ja3: string, userAgent: string, forceHttp1: bool) returns (r: Result)
    ensures r == StringToSpec(ja3, userAgent, forceHttp1)
  {
    var tokens := Split(ja3, ',');
    if |tokens| < 5 { return TooFewFields; }
    var chrome, ver := IsChrome(userAgent), ParseUint(tokens[0], 10, 0x1_0000);
    var target := CollectGroups(OptionalFields(tokens[3]), chrome, ver == Some(772));
    if target.None? { return BadNumber; }
    var points := ParseFields(OptionalFields(tokens[4]), 0x100);
    if points.None? || ver.None? { return BadNumber; }
    r := AssembleHello(chrome, ver.value, target.value, points.value, forceHttp1,
                       Split(tokens[2], '-'), Split(tokens[1], '-'));
  }
}
