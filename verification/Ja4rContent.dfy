/** What a hello compiled from JA4_r says beyond the fingerprint itself: groups, point formats and key shares,
    and with them its JA3. */
module Ja4rContent {
  import opened Text
  import opened StableSort
  import opened ClientHello
  import opened WireOrder
  import opened Ja4r
  import opened Ja4rCompiler
  import opened Ja4rPreservation
  import J = Ja3Preservation

  const SHARES: seq<U16> := [X25519MLKEM768, X25519, P256]

  function DefaultGroups(version: U16): seq<U16> {
    (if version == VERSION_TLS13 then [X25519MLKEM768] else []) + [X25519, P256, P384]
  }

  /** supported_versions at a version that has it. */
  function OfferedVersions(version: U16): seq<U16> {
    if version == VERSION_TLS13 then [0x0304, 0x0303] else [0x0303, 0x0302]
  }

  // ---- Entries as the compiler first builds them ------------------------------------------------------------

  /** Groups, points and shares are the built-in ones. */
  predicate Standard(e: Entry, version: U16, serverName: string) {
    && ExtId(e.ext) == e.id
    && (e.id == 10 ==> e.ext == SupportedGroups(DefaultGroups(version)))
    && (e.id == 11 ==> e.ext == PointFormats([0]))
    && (e.id == 51 ==> e.ext == KeyShare(SHARES))
    && (e.id == 0 ==> e.ext == Sni(serverName))
    && (e.id == 27 ==> e.ext == CompressCert([2]))
    && (e.id == 43 ==> e.ext == SupportedVersions(OfferedVersions(version)))
  }

  predicate AllStandard(es: seq<Entry>, version: U16, serverName: string) {
    forall e :: e in es ==> Standard(e, version, serverName)
  }

  lemma CreatedStandard(id: U16, version: U16, c: Components, serverName: string)
    requires CreateExt(id, version, c, serverName).Some?
    ensures Standard(Entry(id, CreateExt(id, version, c, serverName).value), version, serverName)
  {
  }

  lemma {:induction false} BuiltStandard(ids: seq<U16>, version: U16, c: Components, serverName: string)
    ensures AllStandard(BuildEntries(ids, version, c, serverName), version, serverName)
    decreases |ids|
  {
    hide CreateExt, Standard;
    if ids != [] {
      var last := |ids| - 1;
      BuiltStandard(ids[..last], version, c, serverName);
      if CreateExt(ids[last], version, c, serverName).Some? {
        CreatedStandard(ids[last], version, c, serverName);
      }
    }
  }

  lemma OrderedStandard(c: Components, version: U16, serverName: string, order: seq<U16>)
    ensures AllStandard(OrderEntries(BaseEntries(c, version, serverName), order), version, serverName)
  {
    hide BuildEntries, CreateExt;
    BuiltStandard(c.exts, version, c, serverName);
    var base := BaseEntries(c, version, serverName);
    assert AllStandard(base, version, serverName);
    SortMultiset(base, EntryKey(order));
    forall e | e in OrderEntries(base, order) ensures e in base {
      assert e in multiset(OrderEntries(base, order));
    }
  }

  // ---- What a reader finds under an id -----------------------------------------------------------------------

  function Find(es: seq<Entry>, id: U16): Option<Ext> {
    FindExt(Map(es, ENTRY_EXT), id)
  }

  lemma FindCons(es: seq<Entry>, id: U16)
    ensures es == [] ==> Find(es, id) == None
    ensures es != [] ==> Find(es, id) == if ExtId(es[0].ext) == id then Some(es[0].ext) else Find(es[1..], id)
  {
    if es != [] {
      assert Map(es, ENTRY_EXT)[1..] == Map(es[1..], ENTRY_EXT);
    }
  }

  predicate Labelled(es: seq<Entry>) {
    forall e :: e in es ==> ExtId(e.ext) == e.id && (e.id == 27 ==> e.ext.CompressCert?)
  }

  lemma {:induction false} FindStandard(es: seq<Entry>, version: U16, serverName: string, id: U16)
    requires AllStandard(es, version, serverName)
    ensures Find(es, id).Some? <==> id in Ids(es)
    ensures Find(es, id).Some? ==> Standard(Entry(id, Find(es, id).value), version, serverName)
    decreases |es|
  {
    hide Standard, FindExt;
    FindCons(es, id);
    if es != [] {
      FindStandard(es[1..], version, serverName, id);
      assert Standard(es[0], version, serverName) && es == [es[0]] + es[1..];
      assert Ids(es) == [es[0].id] + Ids(es[1..]);
      StandardLabel(es[0], version, serverName);
    }
  }

  lemma StandardLabel(e: Entry, version: U16, serverName: string)
    requires Standard(e, version, serverName)
    ensures ExtId(e.ext) == e.id && e == Entry(e.id, e.ext)
    ensures (e.id == 10 ==> e.ext.SupportedGroups?) && (e.id == 27 ==> e.ext.CompressCert?)
  {
  }

  /** The hint's groups replace what is found under id 10, and nothing else. */
  lemma {:induction false} FindAfterGroups(
      es: seq<Entry>, version: U16, serverName: string, groups: seq<U16>, id: U16)
    requires AllStandard(es, version, serverName)
    ensures Labelled(SetGroups(es, groups))
    ensures Find(SetGroups(es, groups), id) ==
            if id == 10 && groups != [] && Find(es, id).Some? then Some(SupportedGroups(groups)) else Find(es, id)
    decreases |es|
  {
    hide Standard, FindExt, Map;
    FindCons(es, id);
    if es != [] {
      StandardLabel(es[0], version, serverName);
      FindCons(SetGroups(es, groups), id);
      FindAfterGroups(es[1..], version, serverName, groups, id);
      assert es == [es[0]] + es[1..];
      forall e | e in es ensures ExtId(e.ext) == e.id && (e.id == 27 ==> e.ext.CompressCert?) {
        StandardLabel(e, version, serverName);
      }
    }
  }

  /** Firefox's certificate compression replaces what is found under id 27, and nothing else. */
  lemma {:induction false} FindAfterCompression(es: seq<Entry>, id: U16)
    requires Labelled(es)
    ensures Labelled(SetCompression(es))
    ensures Find(SetCompression(es), id) ==
            if id == 27 && Find(es, id).Some? then Some(CompressCert([1, 2, 3])) else Find(es, id)
    decreases |es|
  {
    hide FindExt, Map;
    FindCons(es, id);
    if es != [] {
      FindCons(SetCompression(es), id);
      assert es == [es[0]] + es[1..];
      assert ExtId(es[0].ext) == es[0].id && (es[0].id == 27 ==> es[0].ext.CompressCert?);
      FindAfterCompression(es[1..], id);
    }
  }

  function Greasy(x: Ext): Ext {
    GreaseEntry(Entry(0, x)).ext
  }

  lemma {:induction false} FindAmongGreased(es: seq<Entry>, id: U16)
    requires id != GREASE
    ensures Find(Map(es, GREASE_ENTRY) + [Entry(GREASE, GreaseExt)], id) ==
            match Find(es, id) case None => None case Some(x) => Some(Greasy(x))
    decreases |es|
  {
    var tail := [Entry(GREASE, GreaseExt)];
    var all := Map(es, GREASE_ENTRY) + tail;
    if es == [] {
      assert all == tail;
      FindCons(tail, id);
    } else {
      FindAmongGreased(es[1..], id);
      assert all[0] == GreaseEntry(es[0]) && all[1..] == Map(es[1..], GREASE_ENTRY) + tail;
      FindCons(all, id);
      FindCons(es, id);
    }
  }

  /** GREASE entries are found under no other id; inside an extension GREASE goes first. */
  lemma FindGreased(es: seq<Entry>, id: U16)
    requires id != GREASE
    ensures Find(Greased(es), id) == match Find(es, id) case None => None case Some(x) => Some(Greasy(x))
  {
    hide Find, Map;
    FindAmongGreased(es, id);
    var rest := Map(es, GREASE_ENTRY) + [Entry(GREASE, GreaseExt)];
    assert Greased(es) == [Entry(GREASE, GreaseExt)] + rest;
    assert Greased(es)[1..] == rest;
    FindCons(Greased(es), id);
  }

  // ---- Groups, points and shares of a compiled hello -----------------------------------------------------------

  /** What the groups extension lists: the hint's groups when it has any. */
  function OfferedGroups(f: Fingerprint, s: Settings): seq<U16>
    requires VersionOf("t" + f.version).Some?
  {
    var hint := ParseHint(s.ja3).groups;
    if hint == [] then DefaultGroups(TlsOf(f)) else hint
  }

  /** What an id of interest says before GREASE. */
  function Content(f: Fingerprint, s: Settings, id: U16): Ext
    requires VersionOf("t" + f.version).Some?
  {
    if id == 10 then SupportedGroups(OfferedGroups(f, s))
    else if id == 11 then PointFormats([0])
    else if id == 51 then KeyShare(SHARES)
    else if id == 0 then Sni(s.serverName)
    else if id == 27 then CompressCert(if Contains(s.userAgent, "Firefox/") then [1, 2, 3] else [2])
    else SupportedVersions(OfferedVersions(TlsOf(f)))
  }

  predicate OfInterest(id: U16) {
    id == 10 || id == 11 || id == 51 || id == 0 || id == 27 || id == 43
  }

  /** Listed, and there at the version; the server name by its flag. */
  predicate Present(f: Fingerprint, id: U16)
    requires VersionOf("t" + f.version).Some?
  {
    if id == 0 then f.sni
    else
      id in f.exts && (id == 51 ==> TlsOf(f) == VERSION_TLS13) &&
      (id == 43 ==> TlsOf(f) == VERSION_TLS13 || TlsOf(f) == VERSION_TLS12)
  }

  lemma FinalContent(f: Fingerprint, s: Settings, id: U16)
    requires Canonical(f) && OfInterest(id)
    ensures Find(FinalEntries(f, s), id) == if Present(f, id) then Some(Content(f, s, id)) else None
  {
    hide VersionOf, Find, BaseEntries, OrderEntries, SetGroups, SetCompression, Ids, AllStandard, Keep, Contains,
         Labelled;
    var hint := ParseHint(s.ja3);
    var ordered := OrderEntries(BaseEntries(ComponentsOf(f), TlsOf(f), s.serverName), hint.exts);
    OrderedStandard(ComponentsOf(f), TlsOf(f), s.serverName, hint.exts);
    FoundBefore(f, s, ordered, id);
    FindAfterGroups(ordered, TlsOf(f), s.serverName, hint.groups, id);
    FindAfterCompression(SetGroups(ordered, hint.groups), id);
  }

  /** Before the touches an id is found exactly when it is listed and exists at the version. */
  lemma FoundBefore(f: Fingerprint, s: Settings, ordered: seq<Entry>, id: U16)
    requires Canonical(f) && OfInterest(id)
    requires ordered == OrderEntries(BaseEntries(ComponentsOf(f), TlsOf(f), s.serverName), ParseHint(s.ja3).exts)
    ensures Find(ordered, id).Some? <==> Present(f, id)
    ensures Find(ordered, id).Some? ==> Standard(Entry(id, Find(ordered, id).value), TlsOf(f), s.serverName)
  {
    hide VersionOf, Find, BaseEntries, OrderEntries, AllStandard, Standard, Ids;
    OrderedStandard(ComponentsOf(f), TlsOf(f), s.serverName, ParseHint(s.ja3).exts);
    FindStandard(ordered, TlsOf(f), s.serverName, id);
    var base := BaseEntries(ComponentsOf(f), TlsOf(f), s.serverName);
    AlpnCodeOfProtocols(f.alpn);
    BaseEntriesGood(ComponentsOf(f), TlsOf(f), s.serverName, WantOf(f));
    OrderKeepsGood(base, ParseHint(s.ja3).exts, WantOf(f));
    CarriedMembers(Ids(ordered), f.sni, Kept(f).exts);
    KeptCanonical(f);
  }

  // ---- Extensions and GREASE of a compiled hello -----------------------------------------------------------------

  /** The extension with GREASE in front of its list, where it has one. */
  predicate WithGrease(x: Ext, y: Ext) {
    match x
    case SupportedVersions(vs) => y == SupportedVersions([GREASE] + vs)
    case SupportedGroups(gs) => y == SupportedGroups([GREASE] + gs)
    case KeyShare(ks) => y == KeyShare([GREASE] + ks)
    case _ => y == x
  }

  lemma OfferedSays(f: Fingerprint, s: Settings, id: U16)
    requires Canonical(f) && !s.forceHttp1 && OfInterest(id)
    ensures Printable(f) && StringToSpec(Print(f), s).Some?
    ensures Says(f, s, StringToSpec(Print(f), s).value, id)
  {
    hide Print, StringToSpec, FinalEntries, Greased, Map, OrderCiphers, FindExt, Content, Present, Contains, VersionOf;
    CompiledForm(f, s);
    FinalContent(f, s, id);
    FindGreased(FinalEntries(f, s), id);
    GreasedEnds(FinalEntries(f, s));
    OfferedGreaseFree(f, s);
  }

  /** Before GREASE there is none. */
  lemma OfferedGreaseFree(f: Fingerprint, s: Settings)
    requires Canonical(f)
    ensures GreaseFree(OrderCiphers(f.ciphers, ParseHint(s.ja3).ciphers))
    ensures GreaseFree(WireIds(Map(FinalEntries(f, s), ENTRY_EXT)))
  {
    hide FinalEntries, Map, OrderCiphers, VersionOf, Keep, WantedIds, Ids, AllGood;
    CipherOrderUnique(f.ciphers, ParseHint(s.ja3).ciphers, []);
    PermutationGreaseFree(OrderCiphers(f.ciphers, ParseHint(s.ja3).ciphers), f.ciphers);
    FinalEntriesGood(f, s);
    KeptCanonical(f);
    WantedGreaseFree(f.sni, Kept(f).exts);
    PermutationGreaseFree(Ids(FinalEntries(f, s)), WantedIds(f.sni, Kept(f).exts));
    ExtsOfGood(FinalEntries(f, s), WantOf(f));
  }

  lemma GreasedEnds(es: seq<Entry>)
    ensures var exts := Map(Greased(es), ENTRY_EXT);
            |exts| >= 2 && exts[0] == GreaseExt && exts[|exts| - 1] == GreaseExt
  {
  }

  /** GREASE and content of a hello, read off the settings: a Chrome agent greases unless that is switched off. */
  ghost predicate Says(f: Fingerprint, s: Settings, h: Hello, id: U16)
    requires VersionOf("t" + f.version).Some?
  {
    var found := FindExt(h.exts, id);
    && (found.Some? <==> Present(f, id))
    && if Contains(s.userAgent, "Chrome/") && !s.disableGrease then
         && h.ciphers != [] && h.ciphers[0] == GREASE && GreaseFree(h.ciphers[1..])
         && |h.exts| >= 2 && h.exts[0] == GreaseExt && h.exts[|h.exts| - 1] == GreaseExt
         && (found.Some? ==> WithGrease(Content(f, s, id), found.value))
       else
         && GreaseFree(h.ciphers) && GreaseFree(WireIds(h.exts))
         && (found.Some? ==> found.value == Content(f, s, id))
  }

  /** In every hello compiled from a canonical fingerprint: a Chrome agent that does not switch it off gets GREASE
      as first cipher, as first and last extension, and in front of versions, groups and key shares; any other
      hello has none beyond what the hint's groups bring; and each extension has exactly its content. */
  lemma CompiledSays(f: Fingerprint, s: Settings, id: U16)
    requires Canonical(f) && OfInterest(id)
    ensures Printable(f) && StringToSpec(Print(f), s).Some?
    ensures Says(f, s, StringToSpec(Print(f), s).value, id)
  {
    hide Print, StringToSpec, Keep, VersionOf, FindExt, Erase, ParseHint, Contains, WithGrease;
    if s.forceHttp1 {
      ForcedHttp1(f, s);
      OfferedSays(f.(alpn := "h1"), s.(forceHttp1 := false), id);
    } else {
      OfferedSays(f, s, id);
    }
  }

  lemma OfferedAlpn(f: Fingerprint, s: Settings)
    requires Canonical(f) && !s.forceHttp1
    ensures Printable(f) && StringToSpec(Print(f), s).Some?
    ensures var h := StringToSpec(Print(f), s).value;
            && FindExt(h.exts, 16) == Some(Alpn(AlpnProtocols(f.alpn).value))
            && FindExt(h.exts, 13) == Some(SignatureAlgorithms(f.sigs))
  {
    hide Print, StringToSpec, FinalEntries, Greased, Map, OrderCiphers, FindExt, VersionOf, Keep, Ids, AllGood,
         WantedIds,
         AlpnProtocols;
    CompiledForm(f, s);
    FinalEntriesGood(f, s);
    KeptCanonical(f);
    var es := FinalEntries(f, s);
    CarriedMembers(Ids(es), f.sni, Kept(f).exts);
    ContentOfGood(es, 16, WantOf(f));
    ContentOfGood(es, 13, WantOf(f));
    FindGreased(es, 16);
    FindGreased(es, 13);
  }

  /** The protocols behind an ALPN code, and the signature schemes, of every hello compiled from a canonical
      fingerprint. */
  lemma CompiledAlpn(f: Fingerprint, s: Settings)
    requires Canonical(f)
    ensures StringToSpec(Print(f), s).Some?
    ensures var h := StringToSpec(Print(f), s).value;
            && FindExt(h.exts, 16) == Some(Alpn(
                 if f.alpn == "h1" || s.forceHttp1 then ["http/1.1"]
                 else if f.alpn == "h2" then ["h2", "http/1.1"] else ["h3", "h2", "http/1.1"]))
            && FindExt(h.exts, 13) == Some(SignatureAlgorithms(f.sigs))
  {
    hide Print, StringToSpec, VersionOf, Keep, FindExt;
    if s.forceHttp1 {
      ForcedHttp1(f, s);
      OfferedAlpn(f.(alpn := "h1"), s.(forceHttp1 := false));
      ProtocolsOf("h1");
    } else {
      OfferedAlpn(f, s);
      ProtocolsOf(f.alpn);
    }
  }

  lemma ProtocolsOf(code: string)
    ensures code == "h1" ==> AlpnProtocols(code) == Some(["http/1.1"])
    ensures code == "h2" ==> AlpnProtocols(code) == Some(["h2", "http/1.1"])
    ensures code == "h3" ==> AlpnProtocols(code) == Some(["h3", "h2", "http/1.1"])
    ensures AlpnProtocols(code).Some? ==> code == "h1" || code == "h2" || code == "h3"
  {
    assert "h1"[1] != "h2"[1] && "h3"[1] != "h2"[1] && "h1"[1] != "h3"[1];
  }

  /** What fingerprints outside the canonical ones get: the nine default schemes when none are given, and an unknown
      ALPN code as the one protocol. */
  lemma Defaults(c: Components, version: U16, serverName: string)
    ensures c.sigs == [] ==>
              CreateExt(13, version, c, serverName) ==
              Some(SignatureAlgorithms([0x0403, 0x0503, 0x0603, 0x0804, 0x0805, 0x0806, 0x0401, 0x0501, 0x0601]))
    ensures AlpnProtocols(c.alpn).None? ==> CreateExt(16, version, c, serverName) == Some(Alpn(["h2", "http/1.1"]))
    ensures c.alpn != "" && 16 !in c.exts && AlpnProtocols(c.alpn).None? ==>
              var es := BaseEntries(c, version, serverName);
              es != [] && es[|es| - 1] == Entry(16, Alpn([c.alpn]))
  {
    hide BuildEntries;
  }

  /** A hint list with a field that is no 16-bit number counts as empty, and then nothing is reordered. */
  lemma BadHintIgnored(list: string, i: nat, items: seq<U16>)
    requires i < |Split(list, '-')| && ParseUint(Split(list, '-')[i], 10, 0x1_0000).None?
    ensures DecimalList(list) == []
    ensures OrderCiphers(items, DecimalList(list)) == items && OrderExtIds(items, DecimalList(list)) == items
  {
    hide Split, ParseUint;
    ParseAllFails(Split(list, '-'), i, 10, 0x1_0000);
  }

  /** The version bounds of the hello. */
  lemma CompiledVersions(f: Fingerprint, s: Settings)
    requires Canonical(f)
    ensures StringToSpec(Print(f), s).Some?
    ensures var h := StringToSpec(Print(f), s).value;
            && h.maxVersion == (if f.version == "13" then 0x0304 else 0x0303)
            && h.minVersion == (if f.version == "10" then 0x0301 else if f.version == "11" then 0x0302 else 0x0303)
  {
    hide Print, StringToSpec, Keep, FinalEntries, Greased, OrderCiphers, Map, VersionOf;
    VersionBounds(f);
    if s.forceHttp1 {
      ForcedHttp1(f, s);
      CompiledForm(f.(alpn := "h1"), s.(forceHttp1 := false));
    } else {
      CompiledForm(f, s);
    }
  }

  lemma VersionBounds(f: Fingerprint)
    requires VersionOf("t" + f.version).Some?
    ensures VersionOf("t" + f.version).value.2 == (if f.version == "13" then 0x0304 else 0x0303)
    ensures VersionOf("t" + f.version).value.1 ==
            if f.version == "10" then 0x0301 else if f.version == "11" then 0x0302 else 0x0303
  {
    var v := "t" + f.version;
    assert v[1..] == f.version;
    assert "t13"[1..] == "13" && "t12"[1..] == "12" && "t11"[1..] == "11" && "t10"[1..] == "10";
    assert "11"[1] != "12"[1] && "10"[1] != "12"[1] && "13"[1] != "12"[1] && "11"[1] != "13"[1] && "10"[1] != "13"[1];
    assert "10"[1] != "11"[1];
  }

  lemma EraseBehindGrease(ids: seq<U16>)
    ensures Erase([GREASE] + ids) == Erase(ids)
  {
    EraseConcat([GREASE], ids);
    ErasePlaceholder();
    assert [] + Erase(ids) == Erase(ids);
  }

  /** Groups, points, key shares and legacy version of every hello compiled from a canonical fingerprint. */
  lemma CompiledContent(f: Fingerprint, s: Settings)
    requires Canonical(f)
    ensures Printable(f) && StringToSpec(Print(f), s).Some?
    ensures var h := StringToSpec(Print(f), s).value;
            && J.ReadGroups(h) == (if 10 in f.exts then Erase(OfferedGroups(f, s)) else [])
            && J.ReadPoints(h) == (if 11 in f.exts then [0] else [])
            && Erase(J.ReadShares(h)) == (if 51 in Kept(f).exts then SHARES else [])
            && J.LegacyVersion(h) == 771
  {
    hide Print, StringToSpec, Keep, VersionOf, ParseHint, Contains, OfferedGroups, Says, Erase, J.ReadGroups,
         J.ReadPoints,
         J.ReadShares;
    CompiledSays(f, s, 10);
    CompiledSays(f, s, 11);
    CompiledSays(f, s, 51);
    CompiledVersions(f, s);
    KeptCanonical(f);
    BuiltAt(TlsOf(f));
    var h := StringToSpec(Print(f), s).value;
    ReadsSaid(f, s, h);
  }

  lemma ReadsSaid(f: Fingerprint, s: Settings, h: Hello)
    requires VersionOf("t" + f.version).Some? && Says(f, s, h, 10) && Says(f, s, h, 11) && Says(f, s, h, 51)
    ensures J.ReadGroups(h) == (if Present(f, 10) then Erase(OfferedGroups(f, s)) else [])
    ensures J.ReadPoints(h) == (if Present(f, 11) then [0] else [])
    ensures Erase(J.ReadShares(h)) == (if Present(f, 51) then SHARES else [])
  {
    hide VersionOf, Contains, OfferedGroups, FindExt, Erase, Present;
    EraseBehindGrease(OfferedGroups(f, s));
    EraseBehindGrease(SHARES);
    assert !IsGrease(X25519MLKEM768) && !IsGrease(X25519) && !IsGrease(P256);
    EraseGreaseFree(SHARES);
    EraseGreaseFree([]);
  }

  lemma BuiltAt(version: U16)
    ensures Built(version)(51) <==> version == VERSION_TLS13
  {
  }

  // ---- Key shares ----------------------------------------------------------------------------------------------

  /** Section 4.2.8 of RFC 8446 wants every share's group to be listed. The three fixed shares of a TLS 1.3 hello
      meet that exactly when groups are sent and the hint, if it names any, names those three. */
  lemma KeySharesListedIff(f: Fingerprint, s: Settings)
    requires Canonical(f) && 51 in Kept(f).exts
    ensures Printable(f) && StringToSpec(Print(f), s).Some?
    ensures var hint := ParseHint(s.ja3).groups;
            J.SharesListed(StringToSpec(Print(f), s).value) <==>
            10 in f.exts && (hint == [] || forall g :: g in SHARES ==> g in hint)
  {
    hide Print, StringToSpec, Keep, VersionOf, J.ReadGroups, J.ReadShares, ParseHint, Erase;
    CompiledContent(f, s);
    KeptCanonical(f);
    EraseMembers(OfferedGroups(f, s));
    assert !IsGrease(X25519MLKEM768) && !IsGrease(X25519) && !IsGrease(P256);
    assert X25519 in SHARES && X25519MLKEM768 in SHARES && P256 in SHARES;
    BuiltNeedsTls13(TlsOf(f));
  }

  lemma BuiltNeedsTls13(version: U16)
    ensures Built(version)(51) ==> DefaultGroups(version) == SHARES + [P384]
  {
  }

  /** For instance a hint from before the hybrid group: its share goes out unlisted. */
  lemma OldHintBreaksShares(f: Fingerprint, s: Settings)
    requires Canonical(f) && 51 in Kept(f).exts
    requires ParseHint(s.ja3).groups != [] && X25519MLKEM768 !in ParseHint(s.ja3).groups
    ensures StringToSpec(Print(f), s).Some? && !J.SharesListed(StringToSpec(Print(f), s).value)
  {
    hide Print, StringToSpec, Keep, VersionOf, J.SharesListed, ParseHint;
    KeySharesListedIff(f, s);
    assert X25519MLKEM768 in SHARES;
  }

  // ---- The JA3 of the hello --------------------------------------------------------------------------------------

  lemma DecimalListOfPrint(ids: seq<U16>)
    ensures DecimalList(J.PrintList(ids)) == ids
  {
    hide Split, Decimal, ParseUint;
    J.ListRoundTrip(ids);
    DecimalFieldsParse(ids, 0x1_0000);
  }

  lemma HintOfPrint(j: J.Fingerprint)
    ensures ParseHint(J.Print(j)) == Hint(j.ciphers, j.exts, j.groups)
  {
    hide Split, Decimal, J.PrintList, J.Print, DecimalList;
    J.PrintedTokens(j);
    DecimalListOfPrint(j.ciphers);
    DecimalListOfPrint(j.exts);
    DecimalListOfPrint(j.groups);
  }

  /** The groups and points of a JA3 are what a hello compiled with it as hint sends. */
  ghost predicate Carried(j: J.Fingerprint) {
    && (if 10 in j.exts then j.groups != [] && GreaseFree(j.groups) else j.groups == [])
    && j.points == (if 11 in j.exts then [0] else [])
  }

  /** With the JA3 of the same capture as hint, the hello's own JA3 is that JA3 if and only if it claims version
      771, its groups, if it sends any, are GREASE-free, and its point formats are the uncompressed one. */
  lemma HelloHasHintJa3(f: Fingerprint, s: Settings, j: J.Fingerprint)
    requires Canonical(f) && s.ja3 == J.Print(j)
    requires Distinct(j.ciphers) && multiset(f.ciphers) == multiset(j.ciphers)
    requires Distinct(j.exts) && multiset(WantedIds(f.sni, Kept(f).exts)) == multiset(j.exts)
    ensures Printable(f) && StringToSpec(Print(f), s).Some?
    ensures J.ReadJa3(StringToSpec(Print(f), s).value) == j <==> j.version == 771 && Carried(j)
  {
    hide Print, StringToSpec, Keep, VersionOf, J.ReadGroups, J.ReadPoints, J.ReadShares, ParseHint, Erase, J.Print,
         WantedIds;
    HintOfPrint(j);
    HintRestoresWireOrder(f, s, j.exts);
    CompiledContent(f, s);
    CarriedMembers(j.exts, f.sni, Kept(f).exts);
    KeptCanonical(f);
    GreaseFreeIff(j.groups);
    GreaseFreeIff(DefaultGroups(TlsOf(f)));
    DefaultsFree(TlsOf(f));
  }

  lemma GreaseFreeIff(ids: seq<U16>)
    ensures Erase(ids) == ids <==> GreaseFree(ids)
  {
    KeepUnchanged(ids, NOT_GREASE);
  }

  lemma DefaultsFree(version: U16)
    ensures GreaseFree(DefaultGroups(version)) && DefaultGroups(version) != []
  {
  }
}
