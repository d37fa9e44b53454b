/** HTTP/2 client fingerprints: golang/http2.go, NewHTTP2Fingerprint and String. */
module Http2Fingerprint {
  import opened Text

  type U32 = n: nat | n < TWO32
  type U8 = n: nat | n < 256

  datatype Setting = Setting(id: U16, val: U32)

  /** The raw weight byte is one less than the weight on display (section 6.3 of RFC 7540). */
  datatype PriorityFrame = PriorityFrame(streamId: U32, exclusive: bool, dep: U32, weight: U8)

  datatype Fingerprint = Fingerprint(
    settings: seq<Setting>, connectionFlow: int, frames: seq<PriorityFrame>,
    headerTableSize: U32, initialWindowSize: U32, maxHeaderListSize: U32, order: seq<string>)

  const HEADER_TABLE_SIZE: U16 := 1
  const INITIAL_WINDOW_SIZE: U16 := 4
  const MAX_HEADER_LIST_SIZE: U16 := 6

  // ---- fmt.Sscanf with %d into uint32 ------------------------------------------------

  predicate IsBlank(c: char) {
    c == ' ' || c == '\t' || c == 11 as char || c == 12 as char || c == '\r'
  }

  function SkipBlanks(s: string): string {
    if s != "" && IsBlank(s[0]) then SkipBlanks(s[1..]) else s
  }

  /** The longest run of decimal digits at the front. */
  function DigitRun(s: string): (d: string)
    ensures d <= s && AllDigits(d, 10)
  {
    if s == "" || !IsDigit(s[0], 10) then "" else [s[0]] + DigitRun(s[1..])
  }

  /** One %d: blanks, then digits; the number and the rest of the input. */
  function ScanUint(s: string): Option<(U32, string)> {
    var t := SkipBlanks(s);
    var d := DigitRun(t);
    if d == "" || Value(d, 10) >= TWO32 then None else Some((Value(d, 10), t[|d|..]))
  }

  /** `n` numbers with a literal ':' between them; what follows the last one is ignored. */
  function ScanFields(s: string, n: nat): (r: Option<seq<U32>>)
    requires n > 0
    ensures r.Some? ==> |r.value| == n
    decreases n
  {
    match ScanUint(s)
    case None => None
    case Some((v, rest)) =>
      if n == 1 then Some([v])
      else if rest == "" || rest[0] != ':' then None
      else match ScanFields(rest[1..], n - 1)
        case None => None
        case Some(vs) => Some([v] + vs)
  }

  // ---- parsing ---------------------------------------------------------------------------

  /** http2.SettingID is 16 bits wide. */
  function ParseSetting(s: string): Option<Setting> {
    if ':' !in s then None
    else match ScanFields(s, 2)
      case None => None
      case Some(vs) => Some(Setting(vs[0] % 0x1_0000, vs[1]))
  }

  function ParseSettings(fields: seq<string>): Option<seq<Setting>> {
    if fields == [] then Some([])
    else
      var last := |fields| - 1;
      var init, s := ParseSettings(fields[..last]), ParseSetting(fields[last]);
      if init.None? || s.None? then None else Some(init.value + [s.value])
  }

  function SettingFields(s: string): seq<string> {
    if ';' in s && ',' !in s then Split(s, ';') else Split(s, ',')
  }

  /** The value the settings leave for one id: the last one wins, 0 if absent. */
  function LastValue(settings: seq<Setting>, id: U16): U32 {
    if settings == [] then 0
    else if settings[|settings| - 1].id == id then settings[|settings| - 1].val
    else LastValue(settings[..|settings| - 1], id)
  }

  function ParseFrame(p: string): Option<PriorityFrame> {
    match ScanFields(p, 4)
    case None => None
    case Some(vs) =>
      var w := if vs[3] > 0 then vs[3] - 1 else 0;
      Some(PriorityFrame(vs[0], vs[1] != 0, vs[2], w % 256))
  }

  function ParseFrameList(fields: seq<string>): Option<seq<PriorityFrame>> {
    if fields == [] then Some([])
    else
      var last := |fields| - 1;
      var init := ParseFrameList(fields[..last]);
      if init.None? then None
      else if fields[last] == "" then init
      else match ParseFrame(fields[last])
        case None => None
        case Some(f) => Some(init.value + [f])
  }

  function ParseFrames(s: string): Option<seq<PriorityFrame>> {
    if s == "" || s == "0" then Some([]) else ParseFrameList(Split(s, ','))
  }

  function Parse(s: string): Option<Fingerprint> {
    var parts := Split(s, '|');
    if |parts| != 4 then None
    else
      var settings, flow, frames := ParseSettings(SettingFields(parts[0])), ScanUint(parts[1]), ParseFrames(parts[2]);
      if settings.None? || flow.None? || frames.None? then None
      else Some(WithSizes(settings.value, flow.value.0, frames.value, Split(parts[3], ',')))
  }

  function WithSizes(settings: seq<Setting>, flow: int, frames: seq<PriorityFrame>, order: seq<string>): Fingerprint {
    Fingerprint(settings, flow, frames, LastValue(settings, HEADER_TABLE_SIZE),
                LastValue(settings, INITIAL_WINDOW_SIZE), LastValue(settings, MAX_HEADER_LIST_SIZE), order)
  }

  /** The SETTINGS loop with its running sizes. */
  method ReadSettings(fields: seq<string>) returns (r: Option<seq<Setting>>, table: U32, window: U32, list: U32)
    ensures r == ParseSettings(fields)
    ensures r.Some? ==> && table == LastValue(r.value, HEADER_TABLE_SIZE)
                        && window == LastValue(r.value, INITIAL_WINDOW_SIZE)
                        && list == LastValue(r.value, MAX_HEADER_LIST_SIZE)
  {
    var settings: seq<Setting> := [];
    table, window, list := 0, 0, 0;
    for i := 0 to |fields|
      invariant ParseSettings(fields[..i]) == Some(settings)
      invariant table == LastValue(settings, HEADER_TABLE_SIZE)
      invariant window == LastValue(settings, INITIAL_WINDOW_SIZE)
      invariant list == LastValue(settings, MAX_HEADER_LIST_SIZE)
    {
      assert fields[..i + 1][..i] == fields[..i];
      var s := ParseSetting(fields[i]);
      if s.None? {
        SettingsFail(fields, i);
        return None, table, window, list;
      }
      assert (settings + [s.value])[..|settings|] == settings;
      settings := settings + [s.value];
      if s.value.id == HEADER_TABLE_SIZE {
        table := s.value.val;
      } else if s.value.id == INITIAL_WINDOW_SIZE {
        window := s.value.val;
      } else if s.value.id == MAX_HEADER_LIST_SIZE {
        list := s.value.val;
      }
    }
    assert fields[..|fields|] == fields;
    r := Some(settings);
  }

  lemma {:induction false} SettingsFail(fields: seq<string>, i: nat)
    requires i < |fields| && ParseSetting(fields[i]).None?
    ensures ParseSettings(fields).None?
    decreases |fields|
  {
    if i < |fields| - 1 {
      SettingsFail(fields[..|fields| - 1], i);
    }
  }

  lemma {:induction false} FramesFail(fields: seq<string>, i: nat)
    requires i < |fields| && fields[i] != "" && ParseFrame(fields[i]).None?
    ensures ParseFrameList(fields).None?
    decreases |fields|
  {
    if i < |fields| - 1 {
      FramesFail(fields[..|fields| - 1], i);
    }
  }

  /** The PRIORITY loop. */
  method ReadFrames(s: string) returns (r: Option<seq<PriorityFrame>>)
    ensures r == ParseFrames(s)
  {
    var frames: seq<PriorityFrame> := [];
    if s != "" && s != "0" {
      var fields := Split(s, ',');
      for i := 0 to |fields|
        invariant ParseFrameList(fields[..i]) == Some(frames)
      {
        assert fields[..i + 1][..i] == fields[..i];
        if fields[i] == "" {
          continue;
        }
        var f := ParseFrame(fields[i]);
        if f.None? {
          FramesFail(fields, i);
          return None;
        }
        frames := frames + [f.value];
      }
      assert fields[..|fields|] == fields;
    }
    r := Some(frames);
  }

  /** NewHTTP2Fingerprint. */
  method NewFingerprint(s: string) returns (r: Option<Fingerprint>)
    ensures r == Parse(s)
  {
    var parts := Split(s, '|');
    if |parts| != 4 { return None; }
    var settings, table, window, list := ReadSettings(SettingFields(parts[0]));
    if settings.None? { return None; }
    var flow := ScanUint(parts[1]);
    if flow.None? { return None; }
    var frames := ReadFrames(parts[2]);
    if frames.None? { return None; }
    r := Some(Fingerprint(settings.value, flow.value.0, frames.value, table, window, list, Split(parts[3], ',')));
  }

  // ---- printing ---------------------------------------------------------------------------

  function PrintNumbers(ns: seq<nat>): string {
    Join(DecimalFields(ns), ':')
  }

  function FrameNumbers(f: PriorityFrame): seq<U32> {
    [f.streamId, if f.exclusive then 1 else 0, f.dep, f.weight + 1]
  }

  function SettingText(s: Setting): string {
    PrintNumbers([s.id, s.val])
  }

  function FrameText(f: PriorityFrame): string {
    PrintNumbers(FrameNumbers(f))
  }

  function PrintSettings(settings: seq<Setting>): (r: seq<string>)
    ensures |r| == |settings|
    ensures forall i :: 0 <= i < |settings| ==> r[i] == SettingText(settings[i])
  {
    if settings == [] then [] else
    PrintSettings(settings[..|settings| - 1]) + [SettingText(settings[|settings| - 1])]
  }

  function PrintFrames(frames: seq<PriorityFrame>): (r: seq<string>)
    ensures |r| == |frames|
    ensures forall i :: 0 <= i < |frames| ==> r[i] == FrameText(frames[i])
  {
    if frames == [] then [] else
    PrintFrames(frames[..|frames| - 1]) + [FrameText(frames[|frames| - 1])]
  }

  /** `%d` of an int. */
  function PrintInt(n: int): string {
    if n < 0 then "-" + Decimal(-n) else Decimal(n)
  }

  function FramesPart(fs: seq<PriorityFrame>): string {
    if fs == [] then "0" else Join(PrintFrames(fs), ',')
  }

  /** String. */
  function Print(f: Fingerprint): string {
    Join([Join(PrintSettings(f.settings), ','), PrintInt(f.connectionFlow),
          FramesPart(f.frames), Join(f.order, ',')], '|')
  }

  /** String, with its two loops. */
  method Format(f: Fingerprint) returns (s: string)
    ensures s == Print(f)
  {
    hide Join, Decimal, PrintNumbers, PrintSettings, PrintFrames;
    var settings: seq<string> := [];
    for i := 0 to |f.settings|
      invariant |settings| == i && forall k :: 0 <= k < i ==> settings[k] == SettingText(f.settings[k])
    {
      settings := settings + [SettingText(f.settings[i])];
    }
    assert settings == PrintSettings(f.settings);
    var frames := "0";
    if |f.frames| > 0 {
      var parts: seq<string> := [];
      for i := 0 to |f.frames|
        invariant |parts| == i && forall k :: 0 <= k < i ==> parts[k] == FrameText(f.frames[k])
      {
        parts := parts + [FrameText(f.frames[i])];
      }
      assert parts == PrintFrames(f.frames);
      frames := Join(parts, ',');
    }
    s := Join([Join(settings, ','), PrintInt(f.connectionFlow), frames, Join(f.order, ',')], '|');
  }

  // ---- the two undo each other ----------------------------------------------------------------

  /** A value the text form can carry. */
  predicate Printable(f: Fingerprint) {
    && f.settings != [] && 0 <= f.connectionFlow < TWO32
    && f.order != [] && Clean(f.order, ',') && Clean(f.order, '|')
    && f == WithSizes(f.settings, f.connectionFlow, f.frames, f.order)
  }

  lemma {:induction false} DigitRunOf(d: string, rest: string)
    requires AllDigits(d, 10) && (rest == "" || !IsDigit(rest[0], 10))
    ensures DigitRun(d + rest) == d
    decreases |d|
  {
    if d == "" {
      assert d + rest == rest;
    } else {
      DigitRunOf(d[1..], rest);
      assert (d + rest)[1..] == d[1..] + rest;
      assert d == [d[0]] + d[1..];
    }
  }

  lemma ScanOfDecimal(n: nat, rest: string)
    requires n < TWO32 && (rest == "" || !IsDigit(rest[0], 10))
    ensures ScanUint(Decimal(n) + rest) == Some((n, rest))
  {
    var s := Decimal(n) + rest;
    assert IsDigit(s[0], 10);
    assert SkipBlanks(s) == s;
    DigitRunOf(Decimal(n), rest);
    assert s[|Decimal(n)|..] == rest;
  }

  lemma PrintNumbersUnfold(ns: seq<nat>)
    requires |ns| > 1
    ensures PrintNumbers(ns) == Decimal(ns[0]) + ([':'] + PrintNumbers(ns[1..]))
    ensures ':' in PrintNumbers(ns)
  {
    assert DecimalFields(ns)[1..] == DecimalFields(ns[1..]);
    assert PrintNumbers(ns)[|Decimal(ns[0])|] == ':';
  }

  lemma ScanFieldsStep(n: U32, rest: string, k: nat)
    requires k > 0
    ensures ScanFields(Decimal(n) + ([':'] + rest), k + 1) ==
            match ScanFields(rest, k) case None => None case Some(vs) => Some([n] + vs)
  {
    ScanOfDecimal(n, [':'] + rest);
    assert ([':'] + rest)[1..] == rest;
  }

  lemma ScanOne(n: U32)
    ensures ScanFields(PrintNumbers([n]), 1) == Some([n])
  {
    ScanOfDecimal(n, "");
    assert PrintNumbers([n]) == Decimal(n) + "";
  }

  /** Scanning a printed colon list gives the numbers back. */
  lemma {:induction false} ScanOfPrint(ns: seq<U32>)
    requires ns != []
    ensures ScanFields(PrintNumbers(ns), |ns|) == Some(ns)
    decreases |ns|
  {
    hide ScanFields, PrintNumbers;
    if |ns| == 1 {
      ScanOne(ns[0]);
      assert ns == [ns[0]];
    } else {
      ScanOfPrint(ns[1..]);
      PrintNumbersUnfold(ns);
      ScanFieldsStep(ns[0], PrintNumbers(ns[1..]), |ns| - 1);
      assert ns == [ns[0]] + ns[1..];
    }
  }

  lemma NumbersClean(ns: seq<nat>, c: char)
    requires DigitValue(c).None? && c != ':'
    ensures c !in PrintNumbers(ns)
  {
    DecimalFieldsClean(ns, c);
    JoinAvoids(DecimalFields(ns), ':', c);
  }

  lemma SettingRoundTrip(s: Setting)
    ensures ParseSetting(SettingText(s)) == Some(s)
  {
    hide ScanFields, PrintNumbers;
    ScanOfPrint([s.id, s.val]);
    PrintNumbersUnfold([s.id, s.val]);
  }

  lemma FrameRoundTrip(f: PriorityFrame)
    ensures ParseFrame(FrameText(f)) == Some(f)
    ensures FrameText(f) != "" && FrameText(f) != "0"
  {
    hide ScanFields, PrintNumbers;
    ScanOfPrint(FrameNumbers(f));
    PrintNumbersUnfold(FrameNumbers(f));
  }

  lemma SettingsSnoc(fields: seq<string>, ss: seq<Setting>, t: string, s: Setting)
    requires ParseSettings(fields) == Some(ss) && ParseSetting(t) == Some(s)
    ensures ParseSettings(fields + [t]) == Some(ss + [s])
  {
    assert (fields + [t])[..|fields|] == fields;
  }

  lemma FramesSnoc(fields: seq<string>, fs: seq<PriorityFrame>, t: string, f: PriorityFrame)
    requires ParseFrameList(fields) == Some(fs) && t != "" && ParseFrame(t) == Some(f)
    ensures ParseFrameList(fields + [t]) == Some(fs + [f])
  {
    assert (fields + [t])[..|fields|] == fields;
  }

  lemma PrintSettingsUnfold(ss: seq<Setting>)
    ensures ss == [] ==> ParseSettings(PrintSettings(ss)) == Some(ss)
    ensures ss != [] ==> PrintSettings(ss) == PrintSettings(ss[..|ss| - 1]) + [SettingText(ss[|ss| - 1])]
  {
  }

  lemma PrintFramesUnfold(fs: seq<PriorityFrame>)
    ensures fs == [] ==> ParseFrameList(PrintFrames(fs)) == Some(fs)
    ensures fs != [] ==> PrintFrames(fs) == PrintFrames(fs[..|fs| - 1]) + [FrameText(fs[|fs| - 1])]
  {
  }

  lemma {:induction false} SettingsRoundTrip(ss: seq<Setting>)
    ensures ParseSettings(PrintSettings(ss)) == Some(ss)
    decreases |ss|
  {
    hide *;
    PrintSettingsUnfold(ss);
    if ss != [] {
      var init, last := ss[..|ss| - 1], ss[|ss| - 1];
      SettingsRoundTrip(init);
      SettingRoundTrip(last);
      SettingsSnoc(PrintSettings(init), init, SettingText(last), last);
      assert ss == init + [last];
    }
  }

  lemma {:induction false} FramesRoundTrip(fs: seq<PriorityFrame>)
    ensures ParseFrameList(PrintFrames(fs)) == Some(fs)
    decreases |fs|
  {
    hide *;
    PrintFramesUnfold(fs);
    if fs != [] {
      var init, last := fs[..|fs| - 1], fs[|fs| - 1];
      FramesRoundTrip(init);
      FrameRoundTrip(last);
      FramesSnoc(PrintFrames(init), init, FrameText(last), last);
      assert fs == init + [last];
    }
  }

  lemma PrintedFieldsClean(ss: seq<Setting>, fs: seq<PriorityFrame>, c: char)
    requires DigitValue(c).None? && c != ':'
    ensures Clean(PrintSettings(ss), c) && Clean(PrintFrames(fs), c)
  {
    forall i | 0 <= i < |ss| ensures c !in PrintSettings(ss)[i] {
      NumbersClean([ss[i].id, ss[i].val], c);
    }
    forall i | 0 <= i < |fs| ensures c !in PrintFrames(fs)[i] {
      NumbersClean(FrameNumbers(fs[i]), c);
    }
  }

  lemma SettingsPartRoundTrip(ss: seq<Setting>)
    requires ss != []
    ensures ParseSettings(SettingFields(Join(PrintSettings(ss), ','))) == Some(ss)
    ensures '|' !in Join(PrintSettings(ss), ',')
  {
    PrintedFieldsClean(ss, [], ',');
    PrintedFieldsClean(ss, [], ';');
    PrintedFieldsClean(ss, [], '|');
    JoinAvoids(PrintSettings(ss), ',', ';');
    JoinAvoids(PrintSettings(ss), ',', '|');
    SplitOfJoin(PrintSettings(ss), ',');
    SettingsRoundTrip(ss);
  }

  lemma FramesPartRoundTrip(fs: seq<PriorityFrame>)
    ensures ParseFrames(FramesPart(fs)) == Some(fs)
    ensures '|' !in FramesPart(fs)
  {
    if fs != [] {
      PrintedFieldsClean([], fs, ',');
      PrintedFieldsClean([], fs, '|');
      JoinAvoids(PrintFrames(fs), ',', '|');
      SplitOfJoin(PrintFrames(fs), ',');
      FramesRoundTrip(fs);
      FrameRoundTrip(fs[0]);
      var s := FramesPart(fs);
      assert Split(s, ',')[0] == PrintFrames(fs)[0];
      assert Split("", ',') == [""] && Split("0", ',') == ["0"] by {
        SplitOfClean("0", ',');
      }
    }
  }

  /** Parsing what was printed gives the same value back. */
  lemma ParseOfPrint(f: Fingerprint)
    requires Printable(f)
    ensures Parse(Print(f)) == Some(f)
  {
    hide ParseSettings, ParseFrames, FramesPart, ScanUint, PrintSettings, Join, Decimal;
    SettingsPartRoundTrip(f.settings);
    FramesPartRoundTrip(f.frames);
    ScanOfDecimal(f.connectionFlow, "");
    assert Decimal(f.connectionFlow) + "" == Decimal(f.connectionFlow);
    DigitsAvoid(Decimal(f.connectionFlow), 10, '|');
    JoinAvoids(f.order, ',', '|');
    SplitOfJoin(f.order, ',');
    var parts := [Join(PrintSettings(f.settings), ','), PrintInt(f.connectionFlow), FramesPart(f.frames),
        Join(f.order, ',')];
    assert Clean(parts, '|');
    SplitOfJoin(parts, '|');
  }

  lemma {:induction false} SettingsNonEmpty(fields: seq<string>)
    requires fields != [] && ParseSettings(fields).Some?
    ensures ParseSettings(fields).value != []
  {
  }

  /** Whatever the parser accepts can be printed. */
  lemma ParsedIsPrintable(s: string)
    requires Parse(s).Some?
    ensures Printable(Parse(s).value)
  {
    var parts := Split(s, '|');
    SplitIsClean(s, '|');
    SplitIsClean(parts[3], ',');
    SplitAvoids(parts[3], ',', '|');
    SettingsNonEmpty(SettingFields(parts[0]));
  }

  /** A value survives printing and parsing exactly when it is printable. */
  lemma RoundTripIff(f: Fingerprint)
    ensures Parse(Print(f)) == Some(f) <==> Printable(f)
  {
    if Printable(f) {
      ParseOfPrint(f);
    } else if Parse(Print(f)) == Some(f) {
      ParsedIsPrintable(Print(f));
    }
  }

  /** For every accepted string, parse, print, parse is parse. */
  lemma Normalises(s: string)
    requires Parse(s).Some?
    ensures Parse(Print(Parse(s).value)) == Parse(s)
  {
    ParsedIsPrintable(s);
    ParseOfPrint(Parse(s).value);
  }

  // ---- what else the parser reads ------------------------------------------------------------------

  /** Blanks in front of a number and anything behind it that is no digit are allowed; 2^32 and above are not. */
  lemma {:induction false} ScanTolerates(blanks: string, n: nat, rest: string)
    requires (forall i :: 0 <= i < |blanks| ==> IsBlank(blanks[i])) && (rest == "" || !IsDigit(rest[0], 10))
    ensures ScanUint(blanks + Decimal(n) + rest) == if n < TWO32 then Some((n, rest)) else None
    decreases |blanks|
  {
    hide Decimal, Value, DigitRun;
    var s := Decimal(n) + rest;
    if blanks == "" {
      assert blanks + Decimal(n) + rest == s;
      ParseOfDecimal(n, n + 1);
      DigitRunOf(Decimal(n), rest);
      assert IsDigit(s[0], 10) && s[|Decimal(n)|..] == rest;
      DigitIsNoBlank(s[0]);
    } else {
      ScanTolerates(blanks[1..], n, rest);
      assert (blanks + Decimal(n) + rest)[1..] == blanks[1..] + Decimal(n) + rest;
    }
  }

  lemma DigitIsNoBlank(c: char)
    ensures IsDigit(c, 10) ==> !IsBlank(c)
    ensures IsBlank(c) <==> c in [' ', '\t', '\r', 11 as char, 12 as char]
  {
  }

  /** A setting id keeps its low 16 bits; a setting needs its colon. */
  lemma SettingOfNumbers(id: U32, val: U32)
    ensures ParseSetting(PrintNumbers([id, val])) == Some(Setting(id % 0x1_0000, val))
    ensures forall s :: ':' !in s ==> ParseSetting(s) == None
  {
    hide ScanFields, PrintNumbers;
    ScanOfPrint([id, val]);
    PrintNumbersUnfold([id, val]);
  }

  /** The value of the last setting with that id, or 0 without one. */
  predicate IsLast(settings: seq<Setting>, id: U16, val: U32) {
    if exists i :: 0 <= i < |settings| && settings[i].id == id then
      exists i :: 0 <= i < |settings| && settings[i] == Setting(id, val) &&
                  forall j :: i < j < |settings| ==> settings[j].id != id
    else val == 0
  }

  lemma {:induction false} LastValueIsLast(settings: seq<Setting>, id: U16)
    ensures IsLast(settings, id, LastValue(settings, id))
    decreases |settings|
  {
    if settings != [] && settings[|settings| - 1].id != id {
      var front := settings[..|settings| - 1];
      LastValueIsLast(front, id);
      if exists i :: 0 <= i < |settings| && settings[i].id == id {
        var i :| 0 <= i < |settings| && settings[i].id == id;
        assert front[i].id == id;
        var k :| 0 <= k < |front| && front[k] == Setting(id, LastValue(front, id)) &&
                 forall j :: k < j < |front| ==> front[j].id != id;
        assert settings[k] == front[k];
      }
    } else if settings != [] {
      assert settings[|settings| - 1] == Setting(id, LastValue(settings, id));
    }
  }

  /** The derived sizes of every accepted fingerprint: table size from setting 1, window from 4, list from 6. */
  lemma DerivedSizes(s: string)
    requires Parse(s).Some?
    ensures var f := Parse(s).value;
            IsLast(f.settings, 1, f.headerTableSize) && IsLast(f.settings, 4, f.initialWindowSize) &&
            IsLast(f.settings, 6, f.maxHeaderListSize)
  {
    hide LastValue, ParseSettings, ParseFrames, ScanUint, Split, IsLast;
    var f := Parse(s).value;
    LastValueIsLast(f.settings, 1);
    LastValueIsLast(f.settings, 4);
    LastValueIsLast(f.settings, 6);
  }

  /** The other accepted spellings: settings separated by semicolons, and an empty priority part. */
  lemma ParseOfVariant(f: Fingerprint, sep: char, noFrames: string)
    requires Printable(f) && (sep == ',' || sep == ';') && (noFrames == "0" || noFrames == "")
    ensures Parse(Join([Join(PrintSettings(f.settings), sep), PrintInt(f.connectionFlow),
                        if f.frames == [] then noFrames else Join(PrintFrames(f.frames), ','), Join(f.order, ',')],
                            '|'))
            == Some(f)
  {
    hide ParseSettings, ParseFrames, FramesPart, ScanUint, PrintSettings, PrintFrames, Join, Decimal, SettingFields;
    SettingsPartRoundTrip(f.settings);
    SemicolonPart(f.settings);
    FramesPartRoundTrip(f.frames);
    FramesPartIs(f.frames);
    ScanOfDecimal(f.connectionFlow, "");
    assert Decimal(f.connectionFlow) + "" == Decimal(f.connectionFlow);
    DigitsAvoid(Decimal(f.connectionFlow), 10, '|');
    JoinAvoids(f.order, ',', '|');
    SplitOfJoin(f.order, ',');
    var third := if f.frames == [] then noFrames else Join(PrintFrames(f.frames), ',');
    assert '|' !in third && ParseFrames(third) == Some(f.frames);
    var parts := [Join(PrintSettings(f.settings), sep), PrintInt(f.connectionFlow), third, Join(f.order, ',')];
    assert Clean(parts, '|');
    SplitOfJoin(parts, '|');
  }

  lemma FramesPartIs(fs: seq<PriorityFrame>)
    ensures fs != [] ==> FramesPart(fs) == Join(PrintFrames(fs), ',')
    ensures ParseFrames("") == Some([]) && ParseFrames("0") == Some([])
  {
  }

  lemma SemicolonPart(ss: seq<Setting>)
    requires ss != []
    ensures ParseSettings(SettingFields(Join(PrintSettings(ss), ';'))) == Some(ss)
    ensures '|' !in Join(PrintSettings(ss), ';')
  {
    PrintedFieldsClean(ss, [], ',');
    PrintedFieldsClean(ss, [], ';');
    PrintedFieldsClean(ss, [], '|');
    var text := Join(PrintSettings(ss), ';');
    JoinAvoids(PrintSettings(ss), ';', ',');
    JoinAvoids(PrintSettings(ss), ';', '|');
    SplitOfJoin(PrintSettings(ss), ';');
    SettingsRoundTrip(ss);
    if ';' !in text {
      SplitOfClean(text, ';');
      SplitOfClean(text, ',');
    }
  }

  /** Display weights 1..256 are kept, and only those: 0 is shown as 1, larger ones wrap. The other fields are
      kept, the exclusive flag as zero or not. */
  lemma WeightShift(stream: U32, exclusive: U32, dep: U32, w: U32)
    ensures ParseFrame(PrintNumbers([stream, exclusive, dep, w])).Some?
    ensures var f := ParseFrame(PrintNumbers([stream, exclusive, dep, w])).value;
            && f.streamId == stream && f.dep == dep && (f.exclusive <==> exclusive != 0)
            && FrameNumbers(f)[0] == stream && FrameNumbers(f)[2] == dep
            && FrameNumbers(f)[1] == (if exclusive == 0 then 0 else 1)
            && (FrameNumbers(f)[3] == w <==> 1 <= w <= 256)
            && (1 <= w <= 256 ==> f.weight == w - 1) && (w == 0 ==> f.weight == 0)
  {
    hide ScanFields, PrintNumbers;
    var ns: seq<U32> := [stream, exclusive, dep, w];
    ScanOfPrint(ns);
  }
}
