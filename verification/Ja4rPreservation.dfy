/** The fingerprint read back from a compiled hello is the one asked for. */
module Ja4rPreservation {
  import opened Text
  import opened StableSort
  import opened ClientHello
  import opened WireOrder
  import opened Ja4r
  import opened Ja4rCompiler

  // ---- reading a hello (FoxIO JA4 specification) ------------------------------

  const BY_VALUE: U16 -> int := (v: U16) => v

  const NOT_SNI_ALPN: U16 -> bool := (v: U16) => v != 0 && v != 16

  /** First and last character of the first protocol, "00" without ALPN. */
  function AlpnCode(h: Hello): string {
    match FindExt(h.exts, 16)
    case Some(Alpn(ps)) => if ps == [] || ps[0] == "" then "00" else [ps[0][0], ps[0][|ps[0]| - 1]]
    case _ => "00"
  }

  function ReadSigs(h: Hello): seq<U16> {
    match FindExt(h.exts, 13)
    case Some(SignatureAlgorithms(ss)) => Erase(ss)
    case _ => []
  }

  /** The highest supported version, else the legacy version field (at most TLS 1.2). */
  function ReadVersion(h: Hello): string {
    match FindExt(h.exts, 43)
    case Some(SupportedVersions(vs)) => if VERSION_TLS13 in Erase(vs) then "13" else "12"
    case _ => "12"
  }

  function ReadJa4r(h: Hello): Fingerprint {
    var ids := Erase(WireIds(h.exts));
    Fingerprint(
      ReadVersion(h), 0 in ids, |Erase(h.ciphers)|, |ids|, AlpnCode(h),
      Sort(Erase(h.ciphers), BY_VALUE), Sort(Keep(ids, NOT_SNI_ALPN), BY_VALUE), ReadSigs(h))
  }

  /** A fingerprint as a JA4 reader would print it for a hello with SNI and ALPN counted. */
  ghost predicate Canonical(f: Fingerprint) {
    && VersionOf("t" + f.version).Some? && AlpnProtocols(f.alpn).Some?
    && SortedBy(f.ciphers, BY_VALUE) && SortedBy(f.exts, BY_VALUE)
    && GreaseFree(f.ciphers) && GreaseFree(f.exts) && GreaseFree(f.sigs)
    && 0 !in f.exts && 16 !in f.exts && 13 in f.exts && f.sigs != []
    && f.cipherCount == |f.ciphers| < 100
    && f.extCount == |f.exts| + 1 + (if f.sni then 1 else 0) < 100
  }

  /** The version the compiler works with. */
  function TlsOf(f: Fingerprint): U16
    requires VersionOf("t" + f.version).Some?
  {
    VersionOf("t" + f.version).value.0
  }

  /** The extensions that exist at a version: no key shares below TLS 1.3 and no supported_versions below
      TLS 1.2. */
  function Built(version: U16): U16 -> bool {
    (id: U16) =>
      (id == 51 ==> version == VERSION_TLS13) && (id == 43 ==> version == VERSION_TLS13 || version == VERSION_TLS12)
  }

  /** What is left of a fingerprint when the others are dropped. */
  function Kept(f: Fingerprint): Fingerprint
    requires VersionOf("t" + f.version).Some?
  {
    var exts := Keep(f.exts, Built(TlsOf(f)));
    f.(exts := exts, extCount := |exts| + 1 + if f.sni then 1 else 0)
  }

  lemma {:induction false} KeepSorted(s: seq<U16>, p: U16 -> bool)
    requires SortedBy(s, BY_VALUE)
    ensures SortedBy(Keep(s, p), BY_VALUE)
    decreases |s|
  {
    if s != [] {
      var kept := Keep(s[1..], p);
      KeepSorted(s[1..], p);
      KeepMembers(s[1..], p);
      forall i | 0 <= i < |kept| ensures BY_VALUE(s[0]) <= BY_VALUE(kept[i]) {
        assert kept[i] in s[1..];
        var j :| 0 <= j < |s[1..]| && s[1..][j] == kept[i];
        assert s[j + 1] == kept[i];
      }
      assert Keep(s, p) == (if p(s[0]) then [s[0]] else []) + kept;
    }
  }

  lemma {:induction false} KeepShorter(s: seq<U16>, p: U16 -> bool)
    ensures |Keep(s, p)| <= |s|
    decreases |s|
  {
    if s != [] {
      KeepShorter(s[1..], p);
    }
  }

  lemma KeptCanonical(f: Fingerprint)
    requires Canonical(f)
    ensures Canonical(Kept(f)) && TlsOf(Kept(f)) == TlsOf(f)
    ensures forall x :: x in Kept(f).exts <==> x in f.exts && Built(TlsOf(f))(x)
    ensures Kept(f) == f <==> forall x :: x in f.exts ==> Built(TlsOf(f))(x)
  {
    hide VersionOf;
    KeepSorted(f.exts, Built(TlsOf(f)));
    KeepShorter(f.exts, Built(TlsOf(f)));
    KeepMembers(f.exts, Built(TlsOf(f)));
    KeepUnchanged(f.exts, Built(TlsOf(f)));
  }

  // ---- what every entry keeps through reordering and touching -----------------

  /** The content a fingerprint asks for. */
  datatype Want = Want(sigs: seq<U16>, protocols: seq<string>, tls13: bool)

  function WantOf(f: Fingerprint): Want
    requires AlpnProtocols(f.alpn).Some? && VersionOf("t" + f.version).Some?
  {
    Want(f.sigs, AlpnProtocols(f.alpn).value, TlsOf(f) == VERSION_TLS13)
  }

  /** An entry's extension has its id, and carries what the fingerprint says. */
  predicate Good(e: Entry, want: Want) {
    && ExtId(e.ext) == e.id
    && !e.ext.Nil?
    && (e.ext.Fixed? ==> e.id != 13 && e.id != 16 && e.id != 43)
    && (e.ext.SignatureAlgorithms? ==> e.ext.schemes == want.sigs)
    && (e.ext.Alpn? ==> e.ext.protocols == want.protocols)
    && (e.ext.SupportedVersions? ==> (VERSION_TLS13 in e.ext.versions <==> want.tls13))
  }

  predicate AllGood(es: seq<Entry>, want: Want) {
    forall e :: e in es ==> Good(e, want)
  }

  function Ids(es: seq<Entry>): seq<U16> {
    Map(es, ENTRY_ID)
  }

  /** The wanted content is what the components say at that version. */
  ghost predicate Matches(want: Want, c: Components, version: U16) {
    && want.sigs == c.sigs != [] && (want.tls13 <==> version == VERSION_TLS13)
  }

  lemma CreatedGood(id: U16, version: U16, c: Components, serverName: string, want: Want)
    requires Matches(want, c, version) && id != 16
    ensures CreateExt(id, version, c, serverName).Some? <==> Built(version)(id)
    ensures CreateExt(id, version, c, serverName).Some? ==>
              Good(Entry(id, CreateExt(id, version, c, serverName).value), want)
  {
  }

  lemma IdsSnoc(es: seq<Entry>, e: Entry)
    ensures Ids(es + [e]) == Ids(es) + [e.id]
  {
    MapConcat(es, [e], ENTRY_ID);
  }

  lemma {:induction false} BuiltEntriesGood(ids: seq<U16>, version: U16, c: Components, serverName: string, want: Want)
    requires Matches(want, c, version) && 16 !in ids
    ensures var es := BuildEntries(ids, version, c, serverName);
            Ids(es) == Keep(ids, Built(version)) && AllGood(es, want)
    decreases |ids|
  {
    hide CreateExt, Good, Ids, Built;
    if ids == [] {
      assert Ids([]) == [] by { SniEntryIds([], ""); }
    } else {
      var last := |ids| - 1;
      BuiltEntriesGood(ids[..last], version, c, serverName, want);
      CreatedGood(ids[last], version, c, serverName, want);
      assert ids == ids[..last] + [ids[last]];
      KeepOne(ids[..last], ids[last], Built(version));
      var es := BuildEntries(ids[..last], version, c, serverName);
      assert es + [] == es;
      if Built(version)(ids[last]) {
        IdsSnoc(es, Entry(ids[last], CreateExt(ids[last], version, c, serverName).value));
      }
    }
  }

  lemma KeepOne(s: seq<U16>, x: U16, p: U16 -> bool)
    ensures Keep(s + [x], p) == if p(x) then Keep(s, p) + [x] else Keep(s, p)
  {
    KeepConcat(s, [x], p);
    assert Keep([x], p) == (if p(x) then [x] else []) + Keep([x][1..], p);
  }

  lemma SniEntryIds(es: seq<Entry>, serverName: string)
    requires es == [] || es == [Entry(0, Sni(serverName))]
    ensures Ids(es) == SniIds(es != [])
  {
  }

  lemma IdsConcat(a: seq<Entry>, b: seq<Entry>)
    ensures Ids(a + b) == Ids(a) + Ids(b)
  {
    MapConcat(a, b, ENTRY_ID);
  }

  /** Before reordering: SNI iff the count leaves room for it, the listed ids that exist at the version, then
      ALPN. */
  lemma BaseEntriesGood(c: Components, version: U16, serverName: string, want: Want)
    requires Matches(want, c, version) && 0 !in c.exts && 16 !in c.exts
    requires c.alpn != "" && AlpnProtocols(c.alpn) == Some(want.protocols)
    ensures var es := BaseEntries(c, version, serverName);
            && Ids(es) == SniIds(c.sni == 'd' && c.extCount > |c.exts| + 1) + Keep(c.exts, Built(version)) + [16]
            && AllGood(es, want)
  {
    hide BuildEntries, Ids, Built;
    BuiltEntriesGood(c.exts, version, c, serverName, want);
    var withSni := c.sni == 'd' && c.extCount > |c.exts| + 1;
    var sni := if withSni then [Entry(0, Sni(serverName))] else [];
    var mid := BuildEntries(c.exts, version, c, serverName);
    var alpn := Entry(16, Alpn(want.protocols));
    assert BaseEntries(c, version, serverName) == sni + mid + [alpn];
    IdsSnoc(sni + mid, alpn);
    IdsConcat(sni, mid);
    SniEntryIds(sni, serverName);
  }

  function SniIds(sni: bool): seq<U16> {
    if sni then [0] else []
  }

  lemma OrderKeepsGood(es: seq<Entry>, order: seq<U16>, want: Want)
    requires AllGood(es, want)
    ensures var out := OrderEntries(es, order);
            AllGood(out, want) && multiset(Ids(out)) == multiset(Ids(es))
  {
    var out := OrderEntries(es, order);
    SortMultiset(es, EntryKey(order));
    forall e | e in out ensures e in es {
      assert e in multiset(out);
    }
    MapMultiset(out, es, ENTRY_ID);
  }

  /** The built entries are ordered exactly as their ids are. */
  lemma EntriesFollowIds(es: seq<Entry>, order: seq<U16>)
    ensures Ids(OrderEntries(es, order)) == OrderExtIds(Ids(es), order)
  {
    SortMap(es, ENTRY_ID, EntryKey(order), ExtKey(order));
  }

  lemma {:induction false} TouchKeepsGood(es: seq<Entry>, groups: seq<U16>, want: Want)
    requires AllGood(es, want)
    ensures AllGood(SetGroups(es, groups), want) && Ids(SetGroups(es, groups)) == Ids(es)
    ensures AllGood(SetCompression(es), want) && Ids(SetCompression(es)) == Ids(es)
    decreases |es|
  {
    if es != [] {
      TouchKeepsGood(es[1..], groups, want);
      assert es == [es[0]] + es[1..];
      assert Good(es[0], want);
      assert Ids(es) == [es[0].id] + Ids(es[1..]);
      var g, z := SetGroups(es, groups), SetCompression(es);
      assert Ids(g) == [g[0].id] + Ids(g[1..]) && Ids(z) == [z[0].id] + Ids(z[1..]);
    }
  }

  lemma GreaseKeepsGood(es: seq<Entry>, want: Want)
    requires AllGood(es, want)
    ensures var out := Map(es, GREASE_ENTRY);
            AllGood(out, want) && Ids(out) == Ids(es)
  {
    var out := Map(es, GREASE_ENTRY);
    forall i | 0 <= i < |es| ensures Good(out[i], want) && out[i].id == es[i].id {
      assert Good(es[i], want);
    }
  }

  // ---- reading back good entries ------------------------------------------------

  lemma {:induction false} ExtsOfGood(es: seq<Entry>, want: Want)
    requires AllGood(es, want)
    ensures WireIds(Map(es, ENTRY_EXT)) == Ids(es)
    decreases |es|
  {
    if es != [] {
      ExtsOfGood(es[1..], want);
      assert Good(es[0], want);
      assert Map(es, ENTRY_EXT)[1..] == Map(es[1..], ENTRY_EXT);
    }
  }

  /** Whatever the order: the content a reader finds under an id is the fingerprint's. */
  lemma ContentOfGood(es: seq<Entry>, id: U16, want: Want)
    requires AllGood(es, want) && id in Ids(es) && id in {13, 16, 43}
    ensures FindExt(Map(es, ENTRY_EXT), id).Some?
    ensures var x := FindExt(Map(es, ENTRY_EXT), id).value;
            (id == 13 ==> x == SignatureAlgorithms(want.sigs)) && (id == 16 ==> x == Alpn(want.protocols))
            && (id == 43 ==> x.SupportedVersions? && (VERSION_TLS13 in x.versions <==> want.tls13))
  {
    hide Map, FindExt, WireIds, Ids;
    ExtsOfGood(es, want);
    var exts := Map(es, ENTRY_EXT);
    FindExtMember(exts, id);
    var x := FindExt(exts, id).value;
    var i :| 0 <= i < |exts| && exts[i] == x;
    assert Good(es[i], want);
  }

  /** The ids a hello with these extensions must carry, GREASE aside. */
  function WantedIds(sni: bool, exts: seq<U16>): seq<U16> {
    SniIds(sni) + exts + [16]
  }

  lemma WantedWithoutSniAlpn(sni: bool, exts: seq<U16>)
    requires 0 !in exts && 16 !in exts
    ensures Keep(WantedIds(sni, exts), NOT_SNI_ALPN) == exts
  {
    var head := SniIds(sni);
    KeepConcat(head + exts, [16], NOT_SNI_ALPN);
    KeepConcat(head, exts, NOT_SNI_ALPN);
    KeepAll(exts, NOT_SNI_ALPN);
    assert Keep(head, NOT_SNI_ALPN) == [];
    assert Keep<U16>([16], NOT_SNI_ALPN) == [];
  }

  lemma SortRecovers(got: seq<U16>, want: seq<U16>)
    requires multiset(got) == multiset(want) && SortedBy(want, BY_VALUE)
    ensures Sort(got, BY_VALUE) == want
  {
    SortIsStable(got, BY_VALUE);
    SortedPermutationUnique(Sort(got, BY_VALUE), want, BY_VALUE);
  }

  /** Dropping SNI and ALPN and sorting gives the listed extensions back. */
  lemma ExtensionsRecovered(got: seq<U16>, sni: bool, exts: seq<U16>)
    requires multiset(got) == multiset(WantedIds(sni, exts))
    requires 0 !in exts && 16 !in exts && SortedBy(exts, BY_VALUE)
    ensures |got| == |exts| + 1 + (if sni then 1 else 0)
    ensures Sort(Keep(got, NOT_SNI_ALPN), BY_VALUE) == exts
  {
    SameLength(got, WantedIds(sni, exts));
    KeepMultiset(got, WantedIds(sni, exts), NOT_SNI_ALPN);
    WantedWithoutSniAlpn(sni, exts);
    SortRecovers(Keep(got, NOT_SNI_ALPN), exts);
  }

  lemma CarriedMembers(got: seq<U16>, sni: bool, exts: seq<U16>)
    requires multiset(got) == multiset(WantedIds(sni, exts))
    ensures forall x :: x in got <==> x in exts || x == 16 || (x == 0 && sni)
  {
    forall x ensures x in got <==> x in WantedIds(sni, exts) {
      assert x in got <==> x in multiset(got);
    }
  }

  lemma PermutationGreaseFree(got: seq<U16>, want: seq<U16>)
    requires multiset(got) == multiset(want) && GreaseFree(want)
    ensures GreaseFree(got) && Erase(got) == got && Erase([GREASE] + got) == got &&
            Erase([GREASE] + got + [GREASE]) == got
  {
    forall v | v in got ensures !IsGrease(v) {
      assert v in multiset(got);
    }
    EraseGreaseFree(got);
    EraseConcat([GREASE] + got, [GREASE]);
    ErasePlaceholder();
  }

  lemma WantedGreaseFree(sni: bool, exts: seq<U16>)
    requires GreaseFree(exts)
    ensures GreaseFree(WantedIds(sni, exts))
  {
    assert !IsGrease(0) && !IsGrease(16);
  }

  lemma AlpnCodeOfProtocols(code: string)
    requires AlpnProtocols(code).Some?
    ensures var ps := AlpnProtocols(code).value;
            ps != [] && ps[0] != "" && [ps[0][0], ps[0][|ps[0]| - 1]] == code && code != "" && code[0] == 'h' &&
                '_' !in code
  {
  }

  /** ALPN code and signature schemes read from good entries. */
  lemma ReadsContent(h: Hello, es: seq<Entry>, code: string, want: Want)
    requires AlpnProtocols(code) == Some(want.protocols) && AllGood(es, want) && h.exts == Map(es, ENTRY_EXT)
    requires 13 in Ids(es) && 16 in Ids(es) && GreaseFree(want.sigs)
    ensures AlpnCode(h) == code && ReadSigs(h) == want.sigs
  {
    hide Map, FindExt, Ids, AllGood, Erase, AlpnProtocols;
    ContentOfGood(es, 13, want);
    ContentOfGood(es, 16, want);
    AlpnCodeOfProtocols(code);
    EraseGreaseFree(want.sigs);
  }

  lemma ReadsVersion(h: Hello, es: seq<Entry>, want: Want)
    requires AllGood(es, want) && h.exts == Map(es, ENTRY_EXT)
    ensures ReadVersion(h) == if 43 in Ids(es) && want.tls13 then "13" else "12"
  {
    ExtsOfGood(es, want);
    FindExtMember(h.exts, 43);
    if 43 in Ids(es) {
      ContentOfGood(es, 43, want);
      EraseMembers(FindExt(h.exts, 43).value.versions);
      assert !IsGrease(VERSION_TLS13);
    }
  }

  /** What the entries of a hello must still carry, however they were reordered and touched. */
  ghost predicate Carries(es: seq<Entry>, f: Fingerprint) {
    && AlpnProtocols(f.alpn).Some? && VersionOf("t" + f.version).Some? && AllGood(es, WantOf(f))
    && multiset(Erase(Ids(es))) == multiset(WantedIds(f.sni, f.exts))
  }

  lemma ErasedMember(ids: seq<U16>, x: U16)
    requires !IsGrease(x)
    ensures x in Erase(ids) <==> x in ids
  {
    EraseMembers(ids);
  }

  /** Reading a hello whose entries carry the fingerprint. */
  lemma ReadsAs(f: Fingerprint, h: Hello, es: seq<Entry>)
    requires Canonical(f) && Carries(es, f) && h.exts == Map(es, ENTRY_EXT)
    requires Sort(Erase(h.ciphers), BY_VALUE) == f.ciphers
    ensures ReadJa4r(h) == f.(version := if 43 in f.exts && TlsOf(f) == VERSION_TLS13 then "13" else "12")
  {
    hide VersionOf;
    var ids := Ids(es);
    ExtsOfGood(es, WantOf(f));
    ExtensionsRecovered(Erase(ids), f.sni, f.exts);
    CarriedMembers(Erase(ids), f.sni, f.exts);
    ErasedMember(ids, 13);
    ErasedMember(ids, 16);
    ErasedMember(ids, 43);
    ReadsContent(h, es, f.alpn, WantOf(f));
    ReadsVersion(h, es, WantOf(f));
    SortMultiset(Erase(h.ciphers), BY_VALUE);
    SameLength(Erase(h.ciphers), f.ciphers);
  }

  function Greased(es: seq<Entry>): seq<Entry> {
    [Entry(GREASE, GreaseExt)] + Map(es, GREASE_ENTRY) + [Entry(GREASE, GreaseExt)]
  }

  lemma GreasedShape(es: seq<Entry>)
    ensures Ids(Greased(es)) == [GREASE] + Ids(Map(es, GREASE_ENTRY)) + [GREASE]
    ensures Map(Greased(es), ENTRY_EXT) == [GreaseExt] + Map(Map(es, GREASE_ENTRY), ENTRY_EXT) + [GreaseExt]
  {
    var g, mid := Entry(GREASE, GreaseExt), Map(es, GREASE_ENTRY);
    IdsSnoc([g] + mid, g);
    MapConcat([g], mid, ENTRY_ID);
    assert Ids([g]) == [GREASE];
    MapConcat([g] + mid, [g], ENTRY_EXT);
    MapConcat([g], mid, ENTRY_EXT);
    assert Map([g], ENTRY_EXT) == [GreaseExt];
  }

  lemma GreasedGood(es: seq<Entry>, want: Want)
    requires AllGood(es, want)
    ensures AllGood(Greased(es), want) && Ids(Greased(es)) == [GREASE] + Ids(es) + [GREASE]
  {
    GreasedShape(es);
    GreaseKeepsGood(es, want);
    assert Good(Entry(GREASE, GreaseExt), want);
    forall e | e in Greased(es) ensures Good(e, want) {
      assert e == Entry(GREASE, GreaseExt) || e in Map(es, GREASE_ENTRY);
    }
  }

  /** GREASE at both ends and inside the lists is invisible to the reader. */
  lemma GreasedCarries(f: Fingerprint, es: seq<Entry>)
    requires AlpnProtocols(f.alpn).Some? && VersionOf("t" + f.version).Some? && AllGood(es, WantOf(f))
    requires multiset(Ids(es)) == multiset(WantedIds(f.sni, f.exts)) && GreaseFree(f.exts)
    ensures Carries(Greased(es), f) && Carries(es, f)
  {
    GreasedGood(es, WantOf(f));
    WantedGreaseFree(f.sni, f.exts);
    PermutationGreaseFree(Ids(es), WantedIds(f.sni, f.exts));
  }

  /** The entries JA4RStringToSpec ends up with, before GREASE. */
  function FinalEntries(f: Fingerprint, s: Settings): seq<Entry>
    requires VersionOf("t" + f.version).Some?
  {
    var hint := ParseHint(s.ja3);
    Touch(OrderEntries(BaseEntries(ComponentsOf(f), TlsOf(f), s.serverName), hint.exts), hint.groups, s.userAgent)
  }

  lemma FinalEntriesGood(f: Fingerprint, s: Settings)
    requires Canonical(f)
    ensures AllGood(FinalEntries(f, s), WantOf(f))
    ensures Ids(FinalEntries(f, s)) == OrderExtIds(WantedIds(f.sni, Kept(f).exts), ParseHint(s.ja3).exts)
    ensures multiset(Ids(FinalEntries(f, s))) == multiset(WantedIds(f.sni, Kept(f).exts))
  {
    hide VersionOf, Built, OrderExtIds, OrderEntries, SetGroups, SetCompression, BaseEntries, Ids, AllGood;
    var hint := ParseHint(s.ja3);
    var base := BaseEntries(ComponentsOf(f), TlsOf(f), s.serverName);
    AlpnCodeOfProtocols(f.alpn);
    BaseEntriesGood(ComponentsOf(f), TlsOf(f), s.serverName, WantOf(f));
    EntriesFollowIds(base, hint.exts);
    OrderKeepsGood(base, hint.exts, WantOf(f));
    var ordered := OrderEntries(base, hint.exts);
    TouchKeepsGood(ordered, hint.groups, WantOf(f));
    TouchKeepsGood(SetGroups(ordered, hint.groups), [], WantOf(f));
  }

  lemma CanonicalPrintable(f: Fingerprint)
    requires Canonical(f)
    ensures Printable(f)
  {
    AlpnCodeOfProtocols(f.alpn);
    var v := "t" + f.version;
    assert |v| == 3 && forall i :: 0 <= i < |f.version| ==> f.version[i] == v[i + 1];
  }

  lemma CompiledForm(f: Fingerprint, s: Settings)
    requires Canonical(f) && !s.forceHttp1
    ensures Printable(f)
    ensures var (_, min, max) := VersionOf("t" + f.version).value;
            var ciphers, es := OrderCiphers(f.ciphers, ParseHint(s.ja3).ciphers), FinalEntries(f, s);
            StringToSpec(Print(f), s) == Some(
              if Greases(s) then Hello(min, max, [GREASE] + ciphers, Map(Greased(es), ENTRY_EXT))
              else Hello(min, max, ciphers, Map(es, ENTRY_EXT)))
  {
    hide VersionOf, OrderCiphers, BaseEntries, OrderEntries, Touch, ParseHint, Greased, Map, Print, ParseJa4r;
    CanonicalPrintable(f);
    ParseOfPrint(f);
    GreasedShape(FinalEntries(f, s));
  }

  lemma CiphersRecovered(f: Fingerprint, order: seq<U16>)
    requires Canonical(f)
    ensures var cs := OrderCiphers(f.ciphers, order);
            Sort(Erase(cs), BY_VALUE) == f.ciphers && Sort(Erase([GREASE] + cs), BY_VALUE) == f.ciphers
  {
    CipherOrderUnique(f.ciphers, order, []);
    PermutationGreaseFree(OrderCiphers(f.ciphers, order), f.ciphers);
    SortRecovers(OrderCiphers(f.ciphers, order), f.ciphers);
  }

  lemma CompilePreservesOffered(f: Fingerprint, s: Settings)
    requires Canonical(f) && !s.forceHttp1
    ensures Printable(f) && StringToSpec(Print(f), s).Some?
    ensures ReadJa4r(StringToSpec(Print(f), s).value) == Visible(f, s)
  {
    hide VersionOf, Print, StringToSpec, Greased, FinalEntries, ReadJa4r, Map, OrderCiphers, Ids, AllGood, WantedIds,
         Built;
    CompiledForm(f, s);
    FinalEntriesGood(f, s);
    KeptCanonical(f);
    CiphersRecovered(f, ParseHint(s.ja3).ciphers);
    var es := FinalEntries(f, s);
    GreasedCarries(Kept(f), es);
    ReadsAs(Kept(f), StringToSpec(Print(f), s).value, if Greases(s) then Greased(es) else es);
    assert TlsOf(f) == VERSION_TLS13 ==> Built(TlsOf(f))(43) by { BuiltFacts(TlsOf(f)); }
  }

  lemma BuiltFacts(version: U16)
    ensures version == VERSION_TLS13 ==> forall id :: Built(version)(id)
    ensures version == VERSION_TLS12 ==> forall id :: Built(version)(id) <==> id != 51
  {
  }

  /** What the version and the settings let a fingerprint say: extensions that do not exist at the version are
      dropped, forceHTTP1 replaces the ALPN code by h1, and TLS 1.3 is visible only through
      supported_versions (43); every other hello offers TLS 1.2 at most and shows it. */
  function Visible(f: Fingerprint, s: Settings): Fingerprint
    requires VersionOf("t" + f.version).Some?
  {
    Kept(f).(alpn := if s.forceHttp1 then "h1" else f.alpn,
             version := if 43 in f.exts && TlsOf(f) == VERSION_TLS13 then "13" else "12")
  }

  /** forceHTTP1 compiles as if the fingerprint had asked for h1. */
  lemma ForcedHttp1(f: Fingerprint, s: Settings)
    requires Canonical(f) && s.forceHttp1
    ensures var g := f.(alpn := "h1");
            && Canonical(g) && Printable(f) && Printable(g)
            && StringToSpec(Print(f), s) == StringToSpec(Print(g), s.(forceHttp1 := false))
  {
    hide Print, ParseJa4r, BaseEntries, OrderCiphers, OrderEntries, Touch, ParseHint, VersionOf, Printable;
    var g := f.(alpn := "h1");
    CanonicalPrintable(f);
    CanonicalPrintable(g);
    ParseOfPrint(f);
    ParseOfPrint(g);
    AlpnCodeOfProtocols(f.alpn);
    assert ComponentsOf(g) == ComponentsOf(f).(alpn := "h1");
  }

  /** JA4_r compilation preserves the fingerprint: ciphers, extensions, signature schemes, counts, SNI
      flag and ALPN are read back as asked, as far as the version and the settings let the hello say it,
      whatever the JA3 hint, user agent, server name or GREASE switch. */
  lemma CompilePreservesFingerprint(f: Fingerprint, s: Settings)
    requires Canonical(f)
    ensures Printable(f) && StringToSpec(Print(f), s).Some?
    ensures ReadJa4r(StringToSpec(Print(f), s).value) == Visible(f, s)
  {
    hide StringToSpec, Print, VersionOf, ReadJa4r, Keep;
    if s.forceHttp1 {
      ForcedHttp1(f, s);
      CompilePreservesOffered(f.(alpn := "h1"), s.(forceHttp1 := false));
    } else {
      CompilePreservesOffered(f, s);
    }
  }

  lemma VersionNames(f: Fingerprint)
    requires VersionOf("t" + f.version).Some?
    ensures TlsOf(f) == VERSION_TLS13 <==> f.version == "13"
    ensures TlsOf(f) == VERSION_TLS12 <==> f.version == "12"
  {
    var v := "t" + f.version;
    assert v[1..] == f.version;
    assert "t13"[1..] == "13" && "t12"[1..] == "12" && "t11"[1..] == "11" && "t10"[1..] == "10";
    assert "11"[1] != "12"[1] && "10"[1] != "12"[1] && "13"[1] != "12"[1] && "11"[1] != "13"[1] && "10"[1] != "13"[1];
  }

  /** The fingerprint reads back unchanged exactly when it is TLS 1.3 with supported_versions listed, or TLS 1.2
      without key shares, and ALPN is not overridden. */
  lemma VisibleIff(f: Fingerprint, s: Settings)
    requires Canonical(f)
    ensures Visible(f, s) == f <==>
            (s.forceHttp1 ==> f.alpn == "h1") &&
            ((f.version == "13" && 43 in f.exts) || (f.version == "12" && 51 !in f.exts))
  {
    hide VersionOf, Keep, Built;
    VersionNames(f);
    KeptCanonical(f);
    BuiltFacts(TlsOf(f));
    assert "13"[1] != "12"[1];
  }

  /** And the printed strings agree exactly then. */
  lemma PrintedFingerprintReadsBack(f: Fingerprint, s: Settings)
    requires Canonical(f)
    ensures Printable(f) && StringToSpec(Print(f), s).Some?
    ensures var g := ReadJa4r(StringToSpec(Print(f), s).value);
            Printable(g) &&
            (Print(g) == Print(f) <==>
             (s.forceHttp1 ==> f.alpn == "h1") &&
             ((f.version == "13" && 43 in f.exts) || (f.version == "12" && 51 !in f.exts)))
  {
    hide StringToSpec, Print, VersionOf, ReadJa4r, Keep;
    CompilePreservesFingerprint(f, s);
    var g := Visible(f, s);
    AlpnCodeOfProtocols(f.alpn);
    KeptCanonical(f);
    assert Printable(g);
    VisibleIff(f, s);
    if Print(g) == Print(f) {
      PrintInjective(f, g);
    }
  }

  lemma HintRestoresOffered(f: Fingerprint, s: Settings, v: seq<U16>)
    requires Canonical(f) && !s.forceHttp1
    requires Distinct(ParseHint(s.ja3).ciphers) && multiset(f.ciphers) == multiset(ParseHint(s.ja3).ciphers)
    requires Distinct(ParseHint(s.ja3).exts) && SameUpToAlps(ParseHint(s.ja3).exts, v)
    requires multiset(WantedIds(f.sni, Kept(f).exts)) == multiset(v)
    ensures Printable(f) && StringToSpec(Print(f), s).Some?
    ensures var h := StringToSpec(Print(f), s).value;
            Erase(h.ciphers) == ParseHint(s.ja3).ciphers && Erase(WireIds(h.exts)) == v
  {
    hide VersionOf, Built, Print, StringToSpec, FinalEntries, OrderCiphers, OrderExtIds, Map, Erase, AllGood,
         Greased, Ids;
    var hint, es := ParseHint(s.ja3), FinalEntries(f, s);
    CompiledForm(f, s);
    CipherOrderRecovers(hint.ciphers, f.ciphers);
    PermutationGreaseFree(hint.ciphers, f.ciphers);
    FinalEntriesGood(f, s);
    KeptCanonical(f);
    ExtOrderRecovers(hint.exts, v, WantedIds(f.sni, Kept(f).exts));
    WantedGreaseFree(f.sni, Kept(f).exts);
    PermutationGreaseFree(v, WantedIds(f.sni, Kept(f).exts));
    GreasedGood(es, WantOf(f));
    ExtsOfGood(es, WantOf(f));
    ExtsOfGood(Greased(es), WantOf(f));
  }

  /** With the originating JA3 as hint, ciphers and extensions go out in the captured wire order (an
      ALPS draft id may differ between the two captures). */
  lemma HintRestoresWireOrder(f: Fingerprint, s: Settings, v: seq<U16>)
    requires Canonical(f)
    requires Distinct(ParseHint(s.ja3).ciphers) && multiset(f.ciphers) == multiset(ParseHint(s.ja3).ciphers)
    requires Distinct(ParseHint(s.ja3).exts) && SameUpToAlps(ParseHint(s.ja3).exts, v)
    requires multiset(WantedIds(f.sni, Kept(f).exts)) == multiset(v)
    ensures Printable(f) && StringToSpec(Print(f), s).Some?
    ensures var h := StringToSpec(Print(f), s).value;
            Erase(h.ciphers) == ParseHint(s.ja3).ciphers && Erase(WireIds(h.exts)) == v
  {
    hide StringToSpec, Print, ParseHint, WantedIds, VersionOf, Keep, Printable, SameUpToAlps, WireIds, Erase;
    if s.forceHttp1 {
      ForcedHttp1(f, s);
      HintRestoresOffered(f.(alpn := "h1"), s.(forceHttp1 := false), v);
    } else {
      HintRestoresOffered(f, s, v);
    }
  }
}
