/** JA4_r to ClientHello: golang/utils.go JA4RStringToSpec and golang/extensions.go
    CreateExtensionFromID. */
module Ja4rCompiler {
  import opened Text
  import opened StableSort
  import opened ClientHello
  import opened WireOrder
  import opened Ja4r

  /** ja4rExtension: a built extension with its wire id. */
  datatype Entry = Entry(id: U16, ext: Ext)

  /** Everything JA4RStringToSpec takes besides the fingerprint. */
  datatype Settings = Settings(userAgent: string, forceHttp1: bool, disableGrease: bool, serverName: string,
      ja3: string)

  const DEFAULT_SIGS: seq<U16> := [0x0403, 0x0503, 0x0603, 0x0804, 0x0805, 0x0806, 0x0401, 0x0501, 0x0601]

  const BROTLI: U16 := 2
  const ZLIB: U16 := 1
  const ZSTD: U16 := 3

  /** cipherSuiteMap: raw id to utls constant. */
  const CIPHER_SUITES: map<U16, U16> := map[
    0x1301 := 0x1301, 0x1302 := 0x1302, 0x1303 := 0x1303, 0x002f := 0x002f, 0x0035 := 0x0035,
    0x009c := 0x009c, 0x009d := 0x009d, 0xc009 := 0xc009, 0xc00a := 0xc00a, 0xc013 := 0xc013,
    0xc014 := 0xc014, 0xc02b := 0xc02b, 0xc02c := 0xc02c, 0xc02f := 0xc02f, 0xc030 := 0xc030,
    0xcca8 := 0xcca8, 0xcca9 := 0xcca9, 0x000a := 0x000a, 0xc023 := 0xc023, 0xc027 := 0xc027]

  /** The cipher loop. Every mapping is the identity, so the raw list goes out unchanged. */
  method MapCiphers(raw: seq<U16>) returns (out: seq<U16>)
    ensures out == raw
  {
    out := [];
    for i := 0 to |raw|
      invariant out == raw[..i]
    {
      if raw[i] in CIPHER_SUITES {
        out := out + [CIPHER_SUITES[raw[i]]];
      } else {
        out := out + [raw[i]];
      }
    }
  }

  function AlpnProtocols(code: string): Option<seq<string>> {
    if code == "h2" then Some(["h2", "http/1.1"])
    else if code == "h1" then Some(["http/1.1"])
    else if code == "h3" then Some(["h3", "h2", "http/1.1"])
    else None
  }

  /** CreateExtensionFromID; None is a nil extension. The signature table is keyed by name, never by
      "0x%04x", so raw schemes are used as they are. Known ids without content of interest, GREASE ids
      and unknown ids all keep their id. */
  function CreateExt(id: U16, version: U16, c: Components, serverName: string): Option<Ext> {
    if id == 0 then Some(Sni(serverName))
    else if id == 10 then
      Some(SupportedGroups((if version == VERSION_TLS13 then [X25519MLKEM768] else []) + [X25519, P256, P384]))
    else if id == 11 then Some(PointFormats([0]))
    else if id == 13 then Some(SignatureAlgorithms(if c.sigs == [] then DEFAULT_SIGS else c.sigs))
    else if id == 16 then
      Some(Alpn(match AlpnProtocols(c.alpn) case Some(ps) => ps case None => ["h2", "http/1.1"]))
    else if id == 27 then Some(CompressCert([BROTLI]))
    else if id == 43 then
      if version == VERSION_TLS13 then Some(SupportedVersions([VERSION_TLS13, VERSION_TLS12]))
      else if version == VERSION_TLS12 then Some(SupportedVersions([VERSION_TLS12, VERSION_TLS11]))
      else None
    else if id == 51 then
      if version == VERSION_TLS13 then Some(KeyShare([X25519MLKEM768, X25519, P256])) else None
    else Some(Fixed(id))
  }

  function BuildEntries(ids: seq<U16>, version: U16, c: Components, serverName: string): seq<Entry> {
    if ids == [] then []
    else
      var last := |ids| - 1;
      BuildEntries(ids[..last], version, c, serverName)
      + (match CreateExt(ids[last], version, c, serverName) case Some(e) => [Entry(ids[last], e)] case None => [])
  }

  method BuildExtensions(ids: seq<U16>, version: U16, c: Components, serverName: string) returns (entries: seq<Entry>)
    ensures entries == BuildEntries(ids, version, c, serverName)
  {
    entries := [];
    for i := 0 to |ids|
      invariant entries == BuildEntries(ids[..i], version, c, serverName)
    {
      assert ids[..i + 1][..i] == ids[..i];
      var ext := CreateExt(ids[i], version, c, serverName);
      if ext.Some? {
        entries := entries + [Entry(ids[i], ext.value)];
      }
    }
    assert ids[..|ids|] == ids;
  }

  // ---- the JA3 ordering hint ------------------------------------------------

  /** The `parse` closure of parseJA3Order: nothing when any field fails. */
  function DecimalList(s: string): seq<U16> {
    if s == "" then []
    else match ParseAll(Split(s, '-'), 10, 0x1_0000) case Some(vs) => vs case None => []
  }

  datatype Hint = Hint(ciphers: seq<U16>, exts: seq<U16>, groups: seq<U16>)

  function ParseHint(ja3: string): Hint {
    var parts := Split(ja3, ',');
    if |parts| < 3 then Hint([], [], [])
    else Hint(DecimalList(parts[1]), DecimalList(parts[2]), if |parts| > 3 then DecimalList(parts[3]) else [])
  }

  function EntryKey(order: seq<U16>): Entry -> int {
    (e: Entry) => ExtKey(order)(e.id)
  }

  /** orderExtensionsByWireOrder on built entries. */
  function OrderEntries(entries: seq<Entry>, order: seq<U16>): seq<Entry> {
    if |WireRank(order)| == 0 || |entries| < 2 then entries else Sort(entries, EntryKey(order))
  }

  // ---- in-place touches -------------------------------------------------------

  /** The first supported_groups entry takes the hint's group list. */
  function SetGroups(entries: seq<Entry>, groups: seq<U16>): (r: seq<Entry>)
    ensures |r| == |entries|
  {
    if entries == [] || groups == [] then entries
    else if entries[0].id == 10 then
      if entries[0].ext.SupportedGroups?
      then [Entry(10, SupportedGroups(groups))] + entries[1..]
      else entries
    else [entries[0]] + SetGroups(entries[1..], groups)
  }

  /** Firefox: the first compress_certificate entry offers zlib, brotli and zstd. */
  function SetCompression(entries: seq<Entry>): (r: seq<Entry>)
    ensures |r| == |entries|
  {
    if entries == [] then []
    else if entries[0].ext.CompressCert? then
      [Entry(entries[0].id, CompressCert([ZLIB, BROTLI, ZSTD]))] + entries[1..]
    else [entries[0]] + SetCompression(entries[1..])
  }

  /** Chrome: GREASE in front of versions, groups and key shares. */
  function GreaseEntry(e: Entry): Entry {
    match e.ext
    case SupportedVersions(vs) => Entry(e.id, SupportedVersions([GREASE] + vs))
    case SupportedGroups(gs) => Entry(e.id, SupportedGroups([GREASE] + gs))
    case KeyShare(ks) => Entry(e.id, KeyShare([GREASE] + ks))
    case _ => e
  }

  const GREASE_ENTRY: Entry -> Entry := (e: Entry) => GreaseEntry(e)

  const ENTRY_EXT: Entry -> Ext := (e: Entry) => e.ext
  const ENTRY_ID: Entry -> U16 := (e: Entry) => e.id

  // ---- the compiler -----------------------------------------------------------

  /** Version string to (version, min, max). */
  function VersionOf(v: string): Option<(U16, U16, U16)> {
    if v == "t10" then Some((VERSION_TLS10, VERSION_TLS10, VERSION_TLS12))
    else if v == "t11" then Some((VERSION_TLS11, VERSION_TLS11, VERSION_TLS12))
    else if v == "t12" then Some((VERSION_TLS12, VERSION_TLS12, VERSION_TLS12))
    else if v == "t13" then Some((VERSION_TLS13, VERSION_TLS12, VERSION_TLS13))
    else None
  }

  /** Entries before any reordering: SNI if it is missing from the count, the listed ones, ALPN. */
  function BaseEntries(c: Components, version: U16, serverName: string): seq<Entry> {
    var addAlpn := c.alpn != "" && 16 !in c.exts;
    var actual := |c.exts| + (if addAlpn then 1 else 0);
    var addSni := c.sni == 'd' && 0 !in c.exts && c.extCount - actual > 0;
    (if addSni then [Entry(0, Sni(serverName))] else [])
    + BuildEntries(c.exts, version, c, serverName)
    + (if addAlpn
       then [Entry(16, Alpn(match AlpnProtocols(c.alpn) case Some(ps) => ps case None => [c.alpn]))]
       else [])
  }

  function Touch(entries: seq<Entry>, groups: seq<U16>, userAgent: string): seq<Entry> {
    var withGroups := SetGroups(entries, groups);
    if Contains(userAgent, "Firefox/") then SetCompression(withGroups) else withGroups
  }

  predicate Greases(s: Settings) {
    Contains(s.userAgent, "Chrome/") && !s.disableGrease
  }

  function Compile(parsed: Components, s: Settings): Option<Hello> {
    match VersionOf(parsed.version)
    case None => None
    case Some((version, min, max)) =>
      var c := if s.forceHttp1 && parsed.alpn != "" then parsed.(alpn := "h1") else parsed;
      var hint := ParseHint(s.ja3);
      var ciphers := OrderCiphers(c.ciphers, hint.ciphers);
      var entries := Touch(OrderEntries(BaseEntries(c, version, s.serverName), hint.exts), hint.groups, s.userAgent);
      if Greases(s) then
        Some(Hello(min, max, [GREASE] + ciphers,
                   [GreaseExt] + Map(Map(entries, GREASE_ENTRY), ENTRY_EXT) + [GreaseExt]))
      else
        Some(Hello(min, max, ciphers, Map(entries, ENTRY_EXT)))
  }

  /** JA4RStringToSpec. */
  function StringToSpec(ja4r: string, s: Settings): Option<Hello> {
    match ParseJa4r(ja4r)
    case None => None
    case Some(c) => Compile(c, s)
  }

  lemma UpdateIsSplice<T>(s: seq<T>, i: nat, x: T)
    requires i < |s|
    ensures s[i := x] == s[..i] + ([x] + s[i..][1..])
    ensures s == s[..i] + s[i..]
    ensures s[..i + 1] == s[..i] + [s[i]] && s[i..][1..] == s[i + 1..] && s[i..][0] == s[i]
  {
  }

  lemma SetGroupsStep(entries: seq<Entry>, i: nat, groups: seq<U16>)
    requires i < |entries| && entries[i].id != 10 && groups != []
    ensures entries[..i] + SetGroups(entries[i..], groups) == entries[..i + 1] + SetGroups(entries[i + 1..], groups)
  {
    UpdateIsSplice(entries, i, entries[i]);
  }

  lemma SetCompressionStep(entries: seq<Entry>, i: nat)
    requires i < |entries| && !entries[i].ext.CompressCert?
    ensures entries[..i] + SetCompression(entries[i..]) == entries[..i + 1] + SetCompression(entries[i + 1..])
  {
    UpdateIsSplice(entries, i, entries[i]);
  }

  method ReplaceGroups(entries: seq<Entry>, groups: seq<U16>) returns (out: seq<Entry>)
    ensures out == SetGroups(entries, groups)
  {
    out := entries;
    if |groups| > 0 {
      assert entries[..0] + SetGroups(entries[0..], groups) == SetGroups(entries, groups);
      for i := 0 to |entries|
        invariant out == entries
        invariant SetGroups(entries, groups) == entries[..i] + SetGroups(entries[i..], groups)
      {
        if entries[i].id == 10 {
          UpdateIsSplice(entries, i, Entry(10, SupportedGroups(groups)));
          if entries[i].ext.SupportedGroups? {
            out := entries[i := Entry(10, SupportedGroups(groups))];
          }
          return;
        }
        SetGroupsStep(entries, i, groups);
      }
    }
  }

  method ReplaceCompression(entries: seq<Entry>) returns (out: seq<Entry>)
    ensures out == SetCompression(entries)
  {
    out := entries;
    assert entries[..0] + SetCompression(entries[0..]) == SetCompression(entries);
    for i := 0 to |entries|
      invariant out == entries
      invariant SetCompression(entries) == entries[..i] + SetCompression(entries[i..])
    {
      if entries[i].ext.CompressCert? {
        var e := Entry(entries[i].id, CompressCert([ZLIB, BROTLI, ZSTD]));
        UpdateIsSplice(entries, i, e);
        out := entries[i := e];
        return;
      }
      SetCompressionStep(entries, i);
    }
  }

  /** SNI by deficit, the listed extensions, then ALPN. */
  method BuildBase(c: Components, v: U16, serverName: string) returns (entries: seq<Entry>)
    ensures entries == BaseEntries(c, v, serverName)
  {
    var hasSni, hasAlpn := 0 in c.exts, 16 in c.exts;
    var actual := |c.exts|;
    if c.alpn != "" && !hasAlpn {
      actual := actual + 1;
    }
    entries := [];
    if c.sni == 'd' && !hasSni && c.extCount - actual > 0 {
      entries := [Entry(0, Sni(serverName))];
    }
    var built := BuildExtensions(c.exts, v, c, serverName);
    entries := entries + built;
    if c.alpn != "" && !hasAlpn {
      var ps := AlpnProtocols(c.alpn);
      entries := entries + [Entry(16, Alpn(if ps.Some? then ps.value else [c.alpn]))];
    }
  }

  method GreaseAll(entries: seq<Entry>) returns (greased: seq<Entry>)
    ensures greased == Map(entries, GREASE_ENTRY)
  {
    greased := [];
    for i := 0 to |entries|
      invariant |greased| == i && forall j :: 0 <= j < i ==> greased[j] == GreaseEntry(entries[j])
    {
      greased := greased + [GreaseEntry(entries[i])];
    }
  }

  /** JA4RStringToSpec step by step, as the source builds the hello. */
  method BuildSpec(ja4r: string, s: Settings) returns (r: Option<Hello>)
    ensures r == StringToSpec(ja4r, s)
  {
    var parsed := ParseJa4rString(ja4r);
    if parsed.None? { return None; }
    var c := parsed.value;
    var version := VersionOf(c.version);
    if version.None? { return None; }
    var (v, min, max) := version.value;
    var ciphers := MapCiphers(c.ciphers);
    if s.forceHttp1 && c.alpn != "" {
      c := c.(alpn := "h1");
    }
    var entries := BuildBase(c, v, s.serverName);
    var hint := ParseHint(s.ja3);
    ciphers := OrderCiphers(ciphers, hint.ciphers);
    entries := OrderEntries(entries, hint.exts);
    entries := ReplaceGroups(entries, hint.groups);
    if Contains(s.userAgent, "Firefox/") {
      entries := ReplaceCompression(entries);
    }
    if Greases(s) {
      var greased := GreaseAll(entries);
      r := Some(Hello(min, max, [GREASE] + ciphers, [GreaseExt] + Map(greased, ENTRY_EXT) + [GreaseExt]));
    } else {
      r := Some(Hello(min, max, ciphers, Map(entries, ENTRY_EXT)));
    }
  }
}
