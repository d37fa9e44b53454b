/** What a hello compiled from a JA3 says, extension by extension, and where GREASE stands in it. */
module Ja3Content {
  import opened Text
  import opened StableSort
  import opened ClientHello
  import opened Ja3
  import opened Ja3Preservation
  import opened Ja3Upgrade
  import opened Ja3Dispatch

  // ---- Extensions -------------------------------------------------------------------------------------------

  /** The content of each extension, by id. */
  predicate Says(x: Ext, id: U16, f: Fingerprint, chrome: bool, forceHttp1: bool) {
    if id == 0 then x == Sni("")
    else if id == 10 then x == SupportedGroups((if chrome then [GREASE] else []) + KeptGroups(f, chrome))
    else if id == 11 then x == PointFormats(f.points)
    else if id == 13 then
      x == SignatureAlgorithms([0x0403, 0x0503, 0x0603, 0x0804, 0x0805, 0x0806, 0x0401, 0x0501, 0x0601, 0x0203, 0x0201])
    else if id == 16 then x == Alpn(if forceHttp1 then ["http/1.1"] else ["h2", "http/1.1"])
    else if id == 27 then x == CompressCert([2])
    else if id == 43 then
      x.SupportedVersions? && x.versions == [GREASE, f.version, f.version - 1]
    else if id == 51 then
      x == KeyShare([GREASE] + (if X25519MLKEM768 in f.groups then [X25519MLKEM768] else []) + [X25519]
                    + (if chrome then [] else [P256]))
    else x == Fixed(id)
  }

  /** GREASE stands in front of everything and in front of each padding extension (21) for Chrome, and nowhere
      for others. */
  ghost predicate GreasedExts(exts: seq<Ext>, ids: seq<U16>, chrome: bool) {
    if chrome then
      && exts != [] && exts[0] == GreaseExt
      && (forall i :: 0 <= i < |exts| && ExtId(exts[i]) == 21 ==> i > 0 && exts[i - 1] == GreaseExt)
      && multiset(exts)[GreaseExt] == 1 + multiset(ids)[21]
    else
      GreaseExt !in exts
  }

  lemma {:induction false} ExtsGreased(ids: seq<U16>, chrome: bool, ext: U16 -> Ext)
    requires (forall e :: e in ids ==> Known(e)) && Filed(ext)
    ensures var r := BuildExts(DecimalFields(ids), chrome, ext);
            r.Some? && GreasedExts(r.value, ids, chrome)
    decreases |ids|
  {
    hide Known, ExtId, DecimalFields, BuildExts;
    if ids == [] {
      NoExtsGreased(ids, chrome, ext);
    } else {
      var last := |ids| - 1;
      var id := ids[last];
      assert id in ids && ids == ids[..last] + [id];
      ExtsGreased(ids[..last], chrome, ext);
      BuildExtsUnfold(ids, chrome, ext);
      KnownNotGrease(id);
      ErasePlaceholder();
      var init := BuildExts(DecimalFields(ids[..last]), chrome, ext).value;
      GreaseExtId();
      assert ext(id) != GreaseExt;
      AppendGreased(init, ids[..last], chrome, id, ext(id));
    }
  }

  lemma GreaseExtId()
    ensures ExtId(GreaseExt) == GREASE != 21
  {
  }

  lemma NoExtsGreased(ids: seq<U16>, chrome: bool, ext: U16 -> Ext)
    requires ids == []
    ensures var r := BuildExts(DecimalFields(ids), chrome, ext);
            r.Some? && GreasedExts(r.value, ids, chrome)
  {
  }

  lemma AppendGreased(init: seq<Ext>, ids: seq<U16>, chrome: bool, id: U16, x: Ext)
    requires GreasedExts(init, ids, chrome) && ExtId(x) == id && x != GreaseExt
    ensures GreasedExts(init + (if id == 21 && chrome then [GreaseExt] else []) + [x], ids + [id], chrome)
  {
    hide ExtId;
    GreaseExtId();
    var pad := if id == 21 && chrome then [GreaseExt] else [];
    var exts := init + pad + [x];
    if chrome {
      forall i | 0 <= i < |exts| && ExtId(exts[i]) == 21
        ensures i > 0 && exts[i - 1] == GreaseExt
      {
        if i < |init| {
          assert exts[i] == init[i];
        }
      }
    }
  }

  lemma TableSays(f: Fingerprint, chrome: bool, forceHttp1: bool, id: U16)
    requires WellFormed(f) && Known(id)
    ensures Says(Table(f, chrome, forceHttp1)(id), id, f, chrome, forceHttp1)
  {
    SharesOf(chrome, Target(f, chrome));
    TargetErased(f, chrome);
    if id == 10 {
      TargetIs(f, chrome);
    }
  }

  lemma TargetIs(f: Fingerprint, chrome: bool)
    ensures Target(f, chrome) == (if chrome then [GREASE] else []) + KeptGroups(f, chrome)
  {
    assert [] + KeptGroups(f, chrome) == KeptGroups(f, chrome);
  }

  /** Every compiled hello: the claimed version and the one below it, the ciphers behind Chrome's GREASE, and under
      each listed id the content that id must have; ids that are not listed are absent. */
  lemma CompiledSays(f: Fingerprint, userAgent: string, forceHttp1: bool, id: U16)
    requires WellFormed(f)
    ensures StringToSpec(Print(f), userAgent, forceHttp1).Ok?
    ensures var h := StringToSpec(Print(f), userAgent, forceHttp1).hello;
            && h.maxVersion == f.version && h.minVersion == f.version - 1
            && h.ciphers == (if IsChrome(userAgent) then [GREASE] else []) + f.ciphers
            && GreasedExts(h.exts, f.exts, IsChrome(userAgent))
            && (id in f.exts ==> FindExt(h.exts, id).Some? &&
                                 Says(FindExt(h.exts, id).value, id, f, IsChrome(userAgent), forceHttp1))
            && (Known(id) && id !in f.exts ==> FindExt(h.exts, id) == None)
  {
    hide StringToSpec, Print, Table, Target, IsChrome, BuildExts, FindExt, Says, GreasedExts, Known, KeptGroups;
    var chrome := IsChrome(userAgent);
    var h := CompiledHello(f, userAgent, forceHttp1);
    var table := Table(f, chrome, forceHttp1);
    TableIsFiled(f, chrome, forceHttp1);
    ExtsPreserved(f.exts, chrome, table);
    ExtsGreased(f.exts, chrome, table);
    if Known(id) {
      FoundInTable(h, f, table, id);
      TableSays(f, chrome, forceHttp1, id);
    }
  }

  lemma TableIsFiled(f: Fingerprint, chrome: bool, forceHttp1: bool)
    requires WellFormed(f)
    ensures Filed(Table(f, chrome, forceHttp1))
  {
    TableFiled(KeyShares(chrome, Target(f, chrome)), Target(f, chrome), f.points, forceHttp1, f.version);
  }

  // ---- The tables --------------------------------------------------------------------------------------------

  /** The groups TLS 1.3 keeps: NIST curves, X25519 and X448, the finite-field groups, and the hybrids. */
  lemma CompatibleGroups(g: U16)
    ensures Compatible(g) <==> g in [23, 24, 25, 29, 30, 256, 257, 258, 259, 260, 4587, 4588, 4589]
  {
  }

  /** The ids the extension table has. */
  lemma KnownIds(id: U16)
    ensures Known(id) <==>
            id in [0, 5, 10, 11, 13, 16, 17, 18, 21, 22, 23, 24, 27, 28, 34, 35, 41, 43, 44, 45, 49, 50, 51, 57,
                   13172, 17513, 17613, 30032, 51764, 65037, 65281]
  {
  }

  /** A field names an extension exactly when it is the canonical decimal of a known id. */
  lemma KeyOfIff(field: string, id: U16)
    ensures KeyOf(field) == Some(id) <==> field == Decimal(id) && Known(id)
  {
    hide Known;
    KeyOfDecimal(id);
  }

  // ---- What the dialled hello offers ------------------------------------------------------------------------

  /** The versions a hello offers, GREASE aside. */
  function ReadVersions(h: Hello): seq<U16> {
    match FindExt(h.exts, 43) case Some(SupportedVersions(vs)) => Erase(vs) case _ => []
  }

  lemma ReadVersionsOf(h: Hello, f: Fingerprint, chrome: bool, forceHttp1: bool)
    requires 770 <= f.version <= 772 && FindExt(h.exts, 43).Some?
    requires Says(FindExt(h.exts, 43).value, 43, f, chrome, forceHttp1)
    ensures ReadVersions(h) == [f.version, f.version - 1]
  {
    var vs: seq<U16> := [f.version, f.version - 1];
    assert FindExt(h.exts, 43).value.versions == [GREASE] + vs;
    assert !IsGrease(f.version) && !IsGrease(f.version - 1);
    EraseGreaseFree(vs);
  }

  /** On the route a dial takes: the hello offers exactly the claimed version and the one below, or TLS 1.3 and 1.2
      after an upgrade; so it offers TLS 1.3 if and only if the JA3 claims it or was upgraded. */
  lemma DispatchOffers(f: Fingerprint, autoRetry: bool, userAgent: string, forceHttp1: bool)
    requires WellFormed(f) && 43 in f.exts
    ensures Dispatch(Print(f), autoRetry, userAgent, forceHttp1).Ok?
    ensures var h := Dispatch(Print(f), autoRetry, userAgent, forceHttp1).hello;
            var top := if f.version == 771 && autoRetry then 772 else f.version;
            && ReadVersions(h) == [top, top - 1]
            && (VERSION_TLS13 in ReadVersions(h) <==> f.version == 772 || (f.version == 771 && autoRetry))
            && (16 in f.exts ==>
                  FindExt(h.exts, 16) ==
                  Some(Alpn(if forceHttp1 then ["http/1.1"] else ["h2", "http/1.1"])))
  {
    hide StringToSpec, Print, Upgrade, IsChrome, FindExt, ReadVersions, GreasedExts, Known, KeptGroups;
    PrefixIff(f);
    UpgradeOfPrint(f);
    var g := if f.version == 771 && autoRetry then Upgraded(f) else f;
    CompiledSays(g, userAgent, forceHttp1, 43);
    CompiledSays(g, userAgent, forceHttp1, 16);
    var h := Dispatch(Print(f), autoRetry, userAgent, forceHttp1).hello;
    ReadVersionsOf(h, g, IsChrome(userAgent), forceHttp1);
  }

  // ---- Agents ------------------------------------------------------------------------------------------------

  /** A word occurs, whatever its case. */
  ghost predicate Occurs(s: string, word: string) {
    exists i :: OccursAt(s, i, word)
  }

  predicate OccursAt(s: string, i: int, word: string) {
    0 <= i <= |s| - |word| && forall j :: 0 <= j < |word| ==> SameLetter(s[i + j], word[j])
  }

  /** `b` is a lower-case letter, and `a` is that letter or its capital. */
  predicate SameLetter(a: char, b: char) {
    a == b || ('A' <= a <= 'Z' && b as int - a as int == 32)
  }

  predicate LowerCase(word: string) {
    forall j :: 0 <= j < |word| ==> 'a' <= word[j] <= 'z'
  }

  lemma {:induction false} LowerLetters(s: string)
    ensures |ToLower(s)| == |s|
    ensures forall i, c :: 0 <= i < |s| && 'a' <= c <= 'z' ==> (ToLower(s)[i] == c <==> SameLetter(s[i], c))
    decreases |s|
  {
    if s != "" {
      LowerLetters(s[1..]);
      assert ToLower(s)[1..] == ToLower(s[1..]);
      forall i, c | 0 <= i < |s| && 'a' <= c <= 'z'
        ensures ToLower(s)[i] == c <==> SameLetter(s[i], c)
      {
        if i > 0 {
          assert ToLower(s)[i] == ToLower(s[1..])[i - 1] && s[i] == s[1..][i - 1];
        }
      }
    }
  }

  lemma OccursIff(s: string, word: string)
    requires LowerCase(word)
    ensures Contains(ToLower(s), word) <==> Occurs(s, word)
  {
    hide ToLower, Contains, SameLetter;
    LowerLetters(s);
    ContainsIff(ToLower(s), word);
    var low := ToLower(s);
    forall i: int
      ensures StandsAt(low, i, word) <==> OccursAt(s, i, word)
    {
      if StandsAt(low, i, word) {
        forall j | 0 <= j < |word| ensures SameLetter(s[i + j], word[j]) {
          assert low[i + j] == low[i..i + |word|][j] == word[j];
        }
      }
      if OccursAt(s, i, word) {
        assert forall j :: 0 <= j < |word| ==> low[i..i + |word|][j] == word[j];
      }
    }
  }

  /** Every agent counts as Chrome except those that name Firefox and not Chrome. */
  lemma ChromeUnlessFirefox(userAgent: string)
    ensures !IsChrome(userAgent) <==> Occurs(userAgent, "firefox") && !Occurs(userAgent, "chrome")
  {
    hide Contains, ToLower, Occurs;
    OccursIff(userAgent, "firefox");
    OccursIff(userAgent, "chrome");
  }
}
