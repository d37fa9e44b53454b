/** A JA3 read back from the compiled hello, and its key shares. */
module Ja3Preservation {
  import opened Text
  import opened StableSort
  import opened ClientHello
  import opened Ja3

  datatype Fingerprint = Fingerprint(
    version: nat, ciphers: seq<U16>, exts: seq<U16>, groups: seq<U16>, points: seq<nat>)

  function PrintList(ids: seq<nat>): string {
    Join(DecimalFields(ids), '-')
  }

  function Print(f: Fingerprint): string {
    Join([Decimal(f.version), PrintList(f.ciphers), PrintList(f.exts), PrintList(f.groups), PrintList(f.points)], ',')
  }

  predicate Below(ids: seq<nat>, limit: nat) {
    forall i :: 0 <= i < |ids| ==> ids[i] < limit
  }

  /** A five-field JA3 of a supported version whose extensions the compiler knows. */
  ghost predicate WellFormed(f: Fingerprint) {
    && 770 <= f.version <= 772
    && f.ciphers != [] && GreaseFree(f.ciphers) && GreaseFree(f.groups)
    && f.exts != [] && (forall e :: e in f.exts ==> Known(e))
    && Below(f.points, 0x100)
  }

  // ---- the string round trip ------------------------------------------------------

  lemma ListRoundTrip(ids: seq<nat>)
    ensures OptionalFields(PrintList(ids)) == DecimalFields(ids)
    ensures ids != [] ==> Split(PrintList(ids), '-') == DecimalFields(ids)
    ensures ',' !in PrintList(ids)
  {
    DecimalFieldsClean(ids, '-');
    DecimalFieldsClean(ids, ',');
    JoinAvoids(DecimalFields(ids), '-', ',');
    if ids != [] {
      SplitOfJoin(DecimalFields(ids), '-');
      assert Split(PrintList(ids), '-')[0] == Decimal(ids[0]) != "";
    }
  }

  lemma PrintedTokens(f: Fingerprint)
    ensures Split(Print(f), ',') ==
            [Decimal(f.version), PrintList(f.ciphers), PrintList(f.exts), PrintList(f.groups), PrintList(f.points)]
  {
    hide Split, PrintList, Decimal, DecimalFields, AllDigits;
    DigitsAvoid(Decimal(f.version), 10, ',');
    ListRoundTrip(f.ciphers);
    ListRoundTrip(f.exts);
    ListRoundTrip(f.groups);
    ListRoundTrip(f.points);
    SplitOfJoin([Decimal(f.version), PrintList(f.ciphers), PrintList(f.exts), PrintList(f.groups),
        PrintList(f.points)], ',');
  }

  lemma TokenValues(f: Fingerprint)
    requires WellFormed(f)
    ensures ParseUint(Decimal(f.version), 10, 0x1_0000) == Some(f.version)
    ensures ParseAll(OptionalFields(PrintList(f.groups)), 10, 0x1_0000) == Some(f.groups)
    ensures ParseAll(OptionalFields(PrintList(f.points)), 10, 0x100) == Some(f.points)
    ensures Split(PrintList(f.exts), '-') == DecimalFields(f.exts)
    ensures Split(PrintList(f.ciphers), '-') == DecimalFields(f.ciphers)
  {
    hide Split, PrintList, Decimal, DecimalFields, AllDigits, ParseUint;
    ParseOfDecimal(f.version, 0x1_0000);
    ListRoundTrip(f.ciphers);
    ListRoundTrip(f.exts);
    ListRoundTrip(f.groups);
    ListRoundTrip(f.points);
    DecimalFieldsParse(f.groups, 0x1_0000);
    DecimalFieldsParse(f.points, 0x100);
  }

  /** The group list of the hello. */
  function Target(f: Fingerprint, chrome: bool): seq<U16> {
    TargetGroups(chrome, f.version == 772, f.groups)
  }

  /** StringToSpec once its five fields have been read. */
  lemma SpecOfTokens(ja3: string, userAgent: string, forceHttp1: bool, f: Fingerprint)
    requires |Split(ja3, ',')| == 5
    requires var t := Split(ja3, ',');
             && ParseUint(t[0], 10, 0x1_0000) == Some(f.version)
             && ParseAll(OptionalFields(t[3]), 10, 0x1_0000) == Some(f.groups)
             && ParseAll(OptionalFields(t[4]), 10, 0x100) == Some(f.points)
             && Split(t[2], '-') == DecimalFields(f.exts)
             && Split(t[1], '-') == DecimalFields(f.ciphers)
    ensures var chrome := IsChrome(userAgent);
            StringToSpec(ja3, userAgent, forceHttp1) ==
            Assemble(chrome, f.version, Target(f, chrome), f.points, forceHttp1,
                     DecimalFields(f.exts), DecimalFields(f.ciphers))
  {
    hide Split, ParseUint, ParseAll, OptionalFields, Assemble, TargetGroups, IsChrome, DecimalFields;
  }

  lemma CompiledForm(f: Fingerprint, userAgent: string, forceHttp1: bool)
    requires WellFormed(f)
    ensures var chrome := IsChrome(userAgent);
            StringToSpec(Print(f), userAgent, forceHttp1) ==
            Assemble(chrome, f.version, Target(f, chrome), f.points, forceHttp1,
                     DecimalFields(f.exts), DecimalFields(f.ciphers))
  {
    hide *;
    PrintedTokens(f);
    TokenValues(f);
    SpecOfTokens(Print(f), userAgent, forceHttp1, f);
  }

  // ---- extensions -------------------------------------------------------------------

  /** Every table entry has the id it is filed under. */
  ghost predicate Filed(ext: U16 -> Ext) {
    forall id :: Known(id) ==> ExtId(ext(id)) == id
  }

  lemma KnownNotGrease(id: U16)
    requires Known(id)
    ensures !IsGrease(id)
  {
  }

  lemma KeyOfDecimal(id: U16)
    ensures KeyOf(Decimal(id)) == if Known(id) then Some(id) else None
  {
    ParseOfDecimal(id, 0x1_0000);
  }

  lemma IdsAppend(exts: seq<Ext>, more: seq<Ext>)
    ensures Erase(WireIds(exts + more)) == Erase(WireIds(exts)) + Erase(WireIds(more))
  {
    MapConcat(exts, more, EXT_ID);
    EraseConcat(WireIds(exts), WireIds(more));
  }

  lemma OneExt(e: Ext)
    ensures Erase(WireIds([e])) == if IsGrease(ExtId(e)) then [] else [ExtId(e)]
  {
    assert WireIds([e]) == [ExtId(e)];
    EraseOne(ExtId(e));
  }

  lemma EraseOne(v: U16)
    ensures Erase([v]) == (if IsGrease(v) then [] else [v]) && Erase([]) == []
  {
    assert [v][1..] == [] && NOT_GREASE(v) == !IsGrease(v);
    assert Keep([v][1..], NOT_GREASE) == [];
  }

  lemma {:induction false} DecimalFieldsPrefix(ids: seq<nat>, n: nat)
    requires n <= |ids|
    ensures DecimalFields(ids)[..n] == DecimalFields(ids[..n])
  {
  }

  lemma BuildExtsUnfold(ids: seq<U16>, chrome: bool, ext: U16 -> Ext)
    requires ids != [] && Known(ids[|ids| - 1])
    ensures var last := |ids| - 1;
            var init := BuildExts(DecimalFields(ids[..last]), chrome, ext);
            BuildExts(DecimalFields(ids), chrome, ext) ==
            if init.None? then None
            else Some(init.value + (if ids[last] == 21 && chrome then [GreaseExt] else []) + [ext(ids[last])])
  {
    var last := |ids| - 1;
    DecimalFieldsPrefix(ids, last);
    KeyOfDecimal(ids[last]);
  }

  /** Every emitted extension is GREASE or comes from the table. */
  ghost predicate FromTable(exts: seq<Ext>, ids: seq<U16>, ext: U16 -> Ext) {
    forall x :: x in exts ==> x == GreaseExt || exists id :: id in ids && x == ext(id)
  }

  lemma FromTableSnoc(exts: seq<Ext>, pad: seq<Ext>, ids: seq<U16>, id: U16, ext: U16 -> Ext)
    requires FromTable(exts, ids, ext) && forall x :: x in pad ==> x == GreaseExt
    ensures FromTable(exts + pad + [ext(id)], ids + [id], ext)
  {
    forall x | x in exts + pad + [ext(id)] ensures x == GreaseExt || exists i :: i in ids + [id] && x == ext(i) {
      if x in exts && x != GreaseExt {
        var i :| i in ids && x == ext(i);
        assert i in ids + [id];
      } else if x !in exts && x !in pad {
        assert id in ids + [id];
      }
    }
  }

  lemma ErasedSnoc(exts: seq<Ext>, pad: seq<Ext>, e: Ext)
    requires pad == [] || pad == [GreaseExt]
    requires !IsGrease(ExtId(e))
    ensures Erase(WireIds(exts + pad + [e])) == Erase(WireIds(exts)) + [ExtId(e)]
  {
    IdsAppend(exts + pad, [e]);
    IdsAppend(exts, pad);
    OneExt(e);
    OneExt(GreaseExt);
    EraseOne(GREASE);
    ErasePlaceholder();
    assert WireIds([]) == [];
    assert Erase(WireIds(pad)) == [];
  }

  lemma NoExts(ids: seq<U16>, chrome: bool, ext: U16 -> Ext)
    requires ids == []
    ensures var r := BuildExts(DecimalFields(ids), chrome, ext);
            r.Some? && Erase(WireIds(r.value)) == ids && FromTable(r.value, ids, ext)
  {
    OneExt(GreaseExt);
    ErasePlaceholder();
    assert WireIds([]) == [];
  }

  /** The extension loop emits the listed ids in order, GREASE aside. */
  lemma {:induction false} ExtsPreserved(ids: seq<U16>, chrome: bool, ext: U16 -> Ext)
    requires (forall e :: e in ids ==> Known(e)) && Filed(ext)
    ensures var r := BuildExts(DecimalFields(ids), chrome, ext);
            r.Some? && Erase(WireIds(r.value)) == ids && FromTable(r.value, ids, ext)
    decreases |ids|
  {
    hide BuildExts, WireIds, Erase, Known, FromTable, ExtId, DecimalFields;
    if ids == [] {
      NoExts(ids, chrome, ext);
    } else {
      var last := |ids| - 1;
      var id := ids[last];
      assert id in ids;
      ExtsPreserved(ids[..last], chrome, ext);
      BuildExtsUnfold(ids, chrome, ext);
      KnownNotGrease(id);
      var init := BuildExts(DecimalFields(ids[..last]), chrome, ext).value;
      var pad := if id == 21 && chrome then [GreaseExt] else [];
      ErasedSnoc(init, pad, ext(id));
      FromTableSnoc(init, pad, ids[..last], id, ext);
      assert ids == ids[..last] + [id];
    }
  }

  lemma TableFiled(shares: seq<U16>, target: seq<U16>, points: seq<nat>, forceHttp1: bool, ver: nat)
    requires 770 <= ver <= 772
    ensures Filed(ExtTable(shares, target, points, forceHttp1, VersionSpec(ver).2))
  {
  }

  // ---- reading back ------------------------------------------------------------------

  function ReadGroups(h: Hello): seq<U16> {
    match FindExt(h.exts, 10) case Some(SupportedGroups(gs)) => Erase(gs) case _ => []
  }

  function ReadPoints(h: Hello): seq<nat> {
    match FindExt(h.exts, 11) case Some(PointFormats(ps)) => ps case _ => []
  }

  function ReadShares(h: Hello): seq<U16> {
    match FindExt(h.exts, 51) case Some(KeyShare(ks)) => ks case _ => []
  }

  /** The legacy version field of a hello stops at TLS 1.2 (section 4.1.2 of RFC 8446). */
  function LegacyVersion(h: Hello): nat {
    if h.maxVersion > 771 then 771 else h.maxVersion
  }

  /** The JA3 of a hello. */
  function ReadJa3(h: Hello): Fingerprint {
    Fingerprint(LegacyVersion(h), Erase(h.ciphers), Erase(WireIds(h.exts)), ReadGroups(h), ReadPoints(h))
  }

  /** The groups that survive: all of them below TLS 1.3; there, the compatible ones, or X25519 and
      P-256 when a non-Chrome agent is left with none. */
  function KeptGroups(f: Fingerprint, chrome: bool): seq<U16> {
    if f.version != 772 then f.groups
    else if Keep(f.groups, COMPATIBLE) == [] && !chrome then [X25519, P256]
    else Keep(f.groups, COMPATIBLE)
  }

  lemma TargetErased(f: Fingerprint, chrome: bool)
    requires GreaseFree(f.groups)
    ensures Erase(Target(f, chrome)) == KeptGroups(f, chrome)
    ensures X25519MLKEM768 in Target(f, chrome) <==> X25519MLKEM768 in f.groups
  {
    var kept := Filtered(f.version == 772, f.groups);
    KeepMembers(f.groups, COMPATIBLE);
    EraseGreaseFree(kept);
    assert [] + kept == kept;
    assert !IsGrease(X25519) && !IsGrease(P256);
    EraseGreaseFree([X25519, P256]);
    assert Compatible(X25519MLKEM768);
  }

  lemma FoundInTable(h: Hello, f: Fingerprint, ext: U16 -> Ext, id: U16)
    requires Filed(ext) && Known(id) && (forall e :: e in f.exts ==> Known(e))
    requires Erase(WireIds(h.exts)) == f.exts
    requires FromTable(h.exts, f.exts, ext)
    ensures FindExt(h.exts, id) == if id in f.exts then Some(ext(id)) else None
  {
    FindExtMember(h.exts, id);
    KnownNotGrease(id);
    EraseMembers(WireIds(h.exts));
    assert id in WireIds(h.exts) <==> id in f.exts;
    if id in f.exts {
      var x := FindExt(h.exts, id).value;
      ErasePlaceholder();
      assert x != GreaseExt;
      var e :| e in f.exts && x == ext(e);
      assert ExtId(ext(e)) == e;
    }
  }

  /** What each field of a compiled hello reads back as. */
  ghost predicate Carries(h: Hello, f: Fingerprint, chrome: bool) {
    && h.maxVersion == f.version && Erase(h.ciphers) == f.ciphers && Erase(WireIds(h.exts)) == f.exts
    && ReadGroups(h) == (if 10 in f.exts then KeptGroups(f, chrome) else [])
    && ReadPoints(h) == (if 11 in f.exts then f.points else [])
    && ReadShares(h) == (if 51 in f.exts then KeyShares(chrome, Target(f, chrome)) else [])
  }

  lemma TableContent(h: Hello, f: Fingerprint, chrome: bool, forceHttp1: bool, table: U16 -> Ext)
    requires WellFormed(f) && Filed(table)
    requires table == ExtTable(KeyShares(chrome, Target(f, chrome)), Target(f, chrome), f.points, forceHttp1,
             VersionSpec(f.version).2)
    requires Erase(WireIds(h.exts)) == f.exts
    requires FromTable(h.exts, f.exts, table)
    ensures ReadGroups(h) == (if 10 in f.exts then KeptGroups(f, chrome) else [])
    ensures ReadPoints(h) == (if 11 in f.exts then f.points else [])
    ensures ReadShares(h) == (if 51 in f.exts then KeyShares(chrome, Target(f, chrome)) else [])
  {
    FoundInTable(h, f, table, 10);
    FoundInTable(h, f, table, 11);
    FoundInTable(h, f, table, 51);
    TargetErased(f, chrome);
  }

  function Table(f: Fingerprint, chrome: bool, forceHttp1: bool): U16 -> Ext {
    ExtTable(KeyShares(chrome, Target(f, chrome)), Target(f, chrome), f.points, forceHttp1, VersionSpec(f.version).2)
  }

  lemma AssembledForm(f: Fingerprint, chrome: bool, forceHttp1: bool)
    requires WellFormed(f)
    ensures var exts := BuildExts(DecimalFields(f.exts), chrome, Table(f, chrome, forceHttp1));
            && exts.Some?
            && Assemble(chrome, f.version, Target(f, chrome), f.points, forceHttp1,
                        DecimalFields(f.exts), DecimalFields(f.ciphers))
               == Ok(Hello(VersionSpec(f.version).1, VersionSpec(f.version).0, GreaseIf(chrome) + f.ciphers,
                   exts.value))
  {
    TableFiled(KeyShares(chrome, Target(f, chrome)), Target(f, chrome), f.points, forceHttp1, f.version);
    ExtsPreserved(f.exts, chrome, Table(f, chrome, forceHttp1));
    DecimalFieldsParse(f.ciphers, 0x1_0000);
  }

  lemma AssembledFields(f: Fingerprint, chrome: bool, forceHttp1: bool, h: Hello)
    requires WellFormed(f)
    requires h.maxVersion == f.version && h.ciphers == GreaseIf(chrome) + f.ciphers
    requires BuildExts(DecimalFields(f.exts), chrome, Table(f, chrome, forceHttp1)) == Some(h.exts)
    ensures Carries(h, f, chrome)
  {
    var table := Table(f, chrome, forceHttp1);
    TableFiled(KeyShares(chrome, Target(f, chrome)), Target(f, chrome), f.points, forceHttp1, f.version);
    ExtsPreserved(f.exts, chrome, table);
    TableContent(h, f, chrome, forceHttp1, table);
    EraseGreaseFree(f.ciphers);
    assert [] + f.ciphers == f.ciphers;
  }

  lemma CompiledHello(f: Fingerprint, userAgent: string, forceHttp1: bool) returns (h: Hello)
    requires WellFormed(f)
    ensures StringToSpec(Print(f), userAgent, forceHttp1) == Ok(h)
    ensures h.maxVersion == f.version && h.ciphers == GreaseIf(IsChrome(userAgent)) + f.ciphers
    ensures h.minVersion == VersionSpec(f.version).1
    ensures BuildExts(DecimalFields(f.exts), IsChrome(userAgent), Table(f, IsChrome(userAgent), forceHttp1)) ==
            Some(h.exts)
  {
    hide StringToSpec, Print, Assemble, BuildExts, Table, Target, IsChrome, DecimalFields, GreaseIf;
    CompiledForm(f, userAgent, forceHttp1);
    AssembledForm(f, IsChrome(userAgent), forceHttp1);
    h := StringToSpec(Print(f), userAgent, forceHttp1).hello;
  }

  /** JA3 compilation succeeds and carries every field. */
  lemma CompiledFields(f: Fingerprint, userAgent: string, forceHttp1: bool)
    requires WellFormed(f)
    ensures StringToSpec(Print(f), userAgent, forceHttp1).Ok?
    ensures Carries(StringToSpec(Print(f), userAgent, forceHttp1).hello, f, IsChrome(userAgent))
  {
    var h := CompiledHello(f, userAgent, forceHttp1);
    AssembledFields(f, IsChrome(userAgent), forceHttp1, h);
  }

  /** The fields the JA3 lists must have their extensions, and TLS 1.3 must neither drop a group nor
      invent the fallback pair. */
  ghost predicate Expressible(f: Fingerprint, chrome: bool) {
    && (10 !in f.exts ==> f.groups == []) && (11 !in f.exts ==> f.points == [])
    && (10 in f.exts && f.version == 772 ==>
          (forall g :: g in f.groups ==> Compatible(g)) && (f.groups != [] || chrome))
  }

  lemma CarriesIff(h: Hello, f: Fingerprint, chrome: bool)
    requires WellFormed(f) && Carries(h, f, chrome)
    ensures ReadJa3(h).(version := f.version) == f <==> Expressible(f, chrome)
    ensures LegacyVersion(h) == f.version <==> f.version != 772
  {
    KeepUnchanged(f.groups, COMPATIBLE);
    assert Compatible(X25519) && Compatible(P256);
    if f.version == 772 && KeptGroups(f, chrome) == f.groups {
      assert forall g :: g in f.groups ==> Compatible(g);
    }
  }

  /** Exactly when the hello reads back as the JA3 asked for: in everything but the version, and in
      everything. A JA3 that claims 772 never does, since no hello shows that number. */
  lemma CompilePreservesFingerprint(f: Fingerprint, userAgent: string, forceHttp1: bool)
    requires WellFormed(f)
    ensures StringToSpec(Print(f), userAgent, forceHttp1).Ok?
    ensures var g := ReadJa3(StringToSpec(Print(f), userAgent, forceHttp1).hello);
            (g.(version := f.version) == f <==> Expressible(f, IsChrome(userAgent))) &&
            (g == f <==> f.version != 772 && Expressible(f, IsChrome(userAgent)))
  {
    CompiledFields(f, userAgent, forceHttp1);
    CarriesIff(StringToSpec(Print(f), userAgent, forceHttp1).hello, f, IsChrome(userAgent));
  }

  /** A TLS 1.3 JA3 without groups and a Firefox agent: the hello lists two groups nobody asked for. */
  lemma EmptyGroupsNotPreserved(f: Fingerprint, userAgent: string, forceHttp1: bool)
    requires WellFormed(f) && f.version == 772 && f.groups == [] && 10 in f.exts && !IsChrome(userAgent)
    ensures StringToSpec(Print(f), userAgent, forceHttp1).Ok?
    ensures ReadGroups(StringToSpec(Print(f), userAgent, forceHttp1).hello) == [X25519, P256]
  {
    CompiledFields(f, userAgent, forceHttp1);
  }

  // ---- key shares -------------------------------------------------------------------------

  lemma SharesOf(chrome: bool, target: seq<U16>)
    ensures KeyShares(chrome, target) ==
            [GREASE] + (if X25519MLKEM768 in target then [X25519MLKEM768] else []) + [X25519]
            + (if chrome then [] else [P256])
  {
    var b := BaseShares(chrome);
    assert InsertHybrid(b[1..]) == [X25519MLKEM768] + b[1..];
  }

  /** A hybrid share iff the hybrid group is listed; never two shares for one group (section 4.2.8 of
      RFC 8446). */
  lemma KeySharesSound(f: Fingerprint, userAgent: string, forceHttp1: bool)
    requires WellFormed(f) && 51 in f.exts
    ensures StringToSpec(Print(f), userAgent, forceHttp1).Ok?
    ensures var shares := ReadShares(StringToSpec(Print(f), userAgent, forceHttp1).hello);
            (X25519MLKEM768 in shares <==> X25519MLKEM768 in f.groups) && Distinct(shares)
  {
    CompiledFields(f, userAgent, forceHttp1);
    TargetErased(f, IsChrome(userAgent));
    ShareFacts(IsChrome(userAgent), Target(f, IsChrome(userAgent)));
  }

  lemma ShareFacts(chrome: bool, target: seq<U16>)
    ensures var shares := KeyShares(chrome, target);
            && Distinct(shares)
            && (X25519MLKEM768 in shares <==> X25519MLKEM768 in target)
            && forall g :: g in Erase(shares) <==>
                 g == X25519 || (g == P256 && !chrome) || (g == X25519MLKEM768 && X25519MLKEM768 in target)
  {
    SharesOf(chrome, target);
    EraseMembers(KeyShares(chrome, target));
    assert IsGrease(GREASE) && !IsGrease(X25519) && !IsGrease(P256) && !IsGrease(X25519MLKEM768);
  }

  lemma NothingKept(groups: seq<U16>)
    ensures Keep(groups, COMPATIBLE) == [] <==> forall g :: g in groups ==> !Compatible(g)
  {
    KeepMembers(groups, COMPATIBLE);
    if Keep(groups, COMPATIBLE) != [] {
      assert Keep(groups, COMPATIBLE)[0] in Keep(groups, COMPATIBLE);
    }
  }

  /** Every share's group is offered too. */
  ghost predicate SharesListed(h: Hello) {
    forall g :: g in Erase(ReadShares(h)) ==> g in ReadGroups(h)
  }

  /** The JA3 lists the groups of the fixed shares, or leaves TLS 1.3 to add them. */
  ghost predicate OffersShares(f: Fingerprint, chrome: bool) {
    || (X25519 in f.groups && (chrome || P256 in f.groups))
    || (f.version == 772 && !chrome && forall g :: g in f.groups ==> !Compatible(g))
  }

  lemma SharesListedIff(h: Hello, f: Fingerprint, chrome: bool)
    requires WellFormed(f) && 51 in f.exts && Carries(h, f, chrome)
    ensures SharesListed(h) <==> 10 in f.exts && OffersShares(f, chrome)
  {
    hide Keep, KeyShares, Erase, ReadGroups, ReadShares, Target;
    TargetErased(f, chrome);
    ShareFacts(chrome, Target(f, chrome));
    NothingKept(f.groups);
    KeepMembers(f.groups, COMPATIBLE);
    assert Compatible(X25519) && Compatible(P256) && Compatible(X25519MLKEM768);
    assert X25519 in Erase(ReadShares(h)) && (!chrome ==> P256 in Erase(ReadShares(h)));
  }

  /** Section 4.2.8 of RFC 8446 also wants every share's group to be listed; the fixed X25519 (and, off
      Chrome, P-256) shares meet that exactly when the JA3 lists those groups, or lets them be added, and
      has the extension to list them in. */
  lemma KeySharesListedIff(f: Fingerprint, userAgent: string, forceHttp1: bool)
    requires WellFormed(f) && 51 in f.exts
    ensures StringToSpec(Print(f), userAgent, forceHttp1).Ok?
    ensures SharesListed(StringToSpec(Print(f), userAgent, forceHttp1).hello) <==>
            10 in f.exts && OffersShares(f, IsChrome(userAgent))
  {
    CompiledFields(f, userAgent, forceHttp1);
    SharesListedIff(StringToSpec(Print(f), userAgent, forceHttp1).hello, f, IsChrome(userAgent));
  }
}
