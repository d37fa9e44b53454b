/** The recording cookie jar: what the client reports after a redirect chain, against a plain replay of
    all Set-Cookie events. */
module CookieJar {
  import opened Text
  import opened StableSort

  /** `dead`: the cookie asks for its own deletion (a negative Max-Age, or an expiry that has passed when
      it arrives). */
  datatype Cookie = Cookie(name: string, value: string, dead: bool)

  /** The jar's own record. A name that is deleted and set again appears twice among the keys. */
  datatype Record = Record(seen: map<string, Cookie>, keys: seq<string>)

  // ---- What the jar computes ---------------------------------------------------------------------------

  function Note(r: Record, c: Cookie): Record {
    if c.dead then r.(seen := r.seen - {c.name})
    else Record(r.seen[c.name := c], if c.name in r.seen then r.keys else r.keys + [c.name])
  }

  function Replay(events: seq<Cookie>): Record {
    if events == [] then Record(map[], []) else Note(Replay(events[..|events| - 1]), events[|events| - 1])
  }

  /** The cookies that are there at all: absent entries are skipped. */
  function Present(cookies: seq<Option<Cookie>>): seq<Cookie> {
    if cookies == [] then []
    else
      var last := cookies[|cookies| - 1];
      Present(cookies[..|cookies| - 1]) + if last.Some? then [last.value] else []
  }

  /** The recorded cookies in key order; a name that occurs twice among the keys is listed twice. */
  function Listed(r: Record, keys: seq<string>): seq<Cookie> {
    if keys == [] then []
    else
      var last := keys[|keys| - 1];
      Listed(r, keys[..|keys| - 1]) + if last in r.seen then [r.seen[last]] else []
  }

  // ---- What it should compute ----------------------------------------------------------------------------

  function Names(cs: seq<Cookie>): (ns: seq<string>)
    ensures |ns| == |cs| && forall i :: 0 <= i < |cs| ==> ns[i] == cs[i].name
  {
    seq(|cs|, i requires 0 <= i < |cs| => cs[i].name)
  }

  /** The last cookie of that name, if there is one. */
  function LastOf(cs: seq<Cookie>, name: string): Option<Cookie> {
    if cs == [] then None
    else if cs[|cs| - 1].name == name then Some(cs[|cs| - 1])
    else LastOf(cs[..|cs| - 1], name)
  }

  /** What a browser would hold after the events: the last one of that name, unless it deletes. */
  function Current(events: seq<Cookie>, name: string): Option<Cookie> {
    match LastOf(events, name)
    case None => None
    case Some(c) => if c.dead then None else Some(c)
  }

  /** The names of all settings, deletions left out. */
  function Settings(events: seq<Cookie>): seq<string> {
    if events == [] then []
    else
      var last := events[|events| - 1];
      Settings(events[..|events| - 1]) + if last.dead then [] else [last.name]
  }

  /** Each name once, where it occurs first. */
  function Firsts(ns: seq<string>): seq<string> {
    if ns == [] then []
    else
      var before := ns[..|ns| - 1];
      Firsts(before) + if ns[|ns| - 1] in before then [] else [ns[|ns| - 1]]
  }

  function Alive(events: seq<Cookie>): string -> bool {
    (n: string) => Current(events, n).Some?
  }

  /** The order of the report: names still alive, by their first setting, then the response's own. */
  function ReportOrder(events: seq<Cookie>, response: seq<Cookie>): seq<string> {
    Firsts(Keep(Settings(events), Alive(events)) + Names(response))
  }

  /** The value reported: the response's last cookie of that name, or else the current one. */
  function ReportValue(events: seq<Cookie>, response: seq<Cookie>, name: string): Option<Cookie> {
    match LastOf(response, name)
    case Some(c) => Some(c)
    case None => Current(events, name)
  }

  // ---- The jar ---------------------------------------------------------------------------------------------

  lemma SnocFacts<T>(s: seq<T>, x: T)
    ensures (s + [x])[..|s + [x]| - 1] == s && (s + [x])[|s + [x]| - 1] == x
  {
  }

  class RecordingJar {
    var seen: map<string, Cookie>
    var keys: seq<string>
    ghost var events: seq<Cookie>

    ghost predicate Valid()
      reads this
    {
      Record(seen, keys) == Replay(events)
    }

    constructor ()
      ensures Valid() && events == []
    {
      seen, keys, events := map[], [], [];
    }

    /** `SetCookies`: one response's Set-Cookie values. */
    method SetCookies(cookies: seq<Option<Cookie>>)
      requires Valid()
      modifies this
      ensures Valid() && events == old(events) + Present(cookies)
    {
      hide Replay, Present;
      NothingYet();
      assert cookies[..0] == [];
      for i := 0 to |cookies|
        invariant Valid() && events == old(events) + Present(cookies[..i])
      {
        PresentSnoc(cookies[..i], cookies[i]);
        assert cookies[..i + 1] == cookies[..i] + [cookies[i]];
        if cookies[i].None? {
          continue;
        }
        var c := cookies[i].value;
        ReplaySnoc(events, c);
        events := events + [c];
        if c.dead {
          seen := seen - {c.name};
          continue;
        }
        if c.name !in seen {
          keys := keys + [c.name];
        }
        seen := seen[c.name := c];
      }
      assert cookies[..|cookies|] == cookies;
    }

    /** `cookies`. */
    method Cookies() returns (out: seq<Cookie>)
      requires Valid()
      ensures out == Listed(Replay(events), Replay(events).keys)
    {
      hide Replay, Listed;
      out := [];
      assert keys[..0] == [];
      NothingYet();
      for i := 0 to |keys|
        invariant out == Listed(Replay(events), keys[..i])
      {
        assert keys[..i + 1] == keys[..i] + [keys[i]];
        ListedSnoc(Replay(events), keys[..i], keys[i]);
        if keys[i] in seen {
          out := out + [seen[keys[i]]];
        }
      }
      assert keys[..|keys|] == keys;
    }
  }

  lemma NothingYet()
    ensures Present([]) == [] && Firsts([]) == [] && HoldsLast(map[], []) && forall r :: Listed(r, []) == []
    ensures Replay([]).keys == []
  {
  }

  lemma PresentSnoc(cs: seq<Option<Cookie>>, c: Option<Cookie>)
    ensures Present(cs + [c]) == Present(cs) + if c.Some? then [c.value] else []
  {
    SnocFacts(cs, c);
  }

  lemma ReplaySnoc(events: seq<Cookie>, c: Cookie)
    ensures Replay(events + [c]) == Note(Replay(events), c)
  {
    SnocFacts(events, c);
  }

  lemma ListedSnoc(r: Record, keys: seq<string>, k: string)
    ensures Listed(r, keys + [k]) == Listed(r, keys) + if k in r.seen then [r.seen[k]] else []
  {
    SnocFacts(keys, k);
  }

  // ---- The merge -------------------------------------------------------------------------------------------

  /** `mergedResponseCookies`: the jar may be missing, and so may the response. */
  method MergedResponseCookies(jar: RecordingJar?, response: Option<seq<Cookie>>) returns (out: seq<Cookie>)
    requires jar != null ==> jar.Valid()
    ensures var events := if jar == null then [] else jar.events;
            var own := if response.Some? then response.value else [];
            Names(out) == ReportOrder(events, own) &&
            forall i :: 0 <= i < |out| ==> Some(out[i]) == ReportValue(events, own, out[i].name)
  {
    hide Replay, Listed, Firsts, LastOf, ReportOrder, ReportValue;
    ghost var events := if jar == null then [] else jar.events;
    var all: seq<Cookie> := [];
    NothingYet();
    if jar != null {
      all := jar.Cookies();
    }
    ghost var own: seq<Cookie> := if response.Some? then response.value else [];
    if response.Some? {
      all := all + response.value;
    }
    out := Merge(all);
    assert all == Listed(Replay(events), Replay(events).keys) + own;
    MergeIsReport(events, own, out);
  }

  /** The two loops of the merge: `add` over all cookies, then the output in order. */
  method Merge(all: seq<Cookie>) returns (out: seq<Cookie>)
    ensures Names(out) == Firsts(Names(all))
    ensures forall i :: 0 <= i < |out| ==> Some(out[i]) == LastOf(all, out[i].name)
  {
    hide Firsts, LastOf, HoldsLast;
    var seen: map<string, Cookie> := map[];
    var order: seq<string> := [];
    NothingYet();
    assert all[..0] == [];
    for i := 0 to |all|
      invariant order == Firsts(Names(all[..i]))
      invariant seen.Keys == set n | n in Names(all[..i])
      invariant HoldsLast(seen, all[..i])
    {
      assert all[..i + 1] == all[..i] + [all[i]];
      assert Names(all[..i + 1]) == Names(all[..i]) + [all[i].name];
      FirstsSnoc(Names(all[..i]), all[i].name);
      SeenSnoc(seen, all[..i], all[i]);
      if all[i].name !in seen {
        order := order + [all[i].name];
      }
      seen := seen[all[i].name := all[i]];
    }
    assert all[..|all|] == all;
    forall n | n in order
      ensures n in seen && seen[n].name == n
    {
      FirstsMembers(Names(all), n);
      HeldName(seen, all, n);
    }
    out := [];
    for i := 0 to |order|
      invariant |out| == i
      invariant forall k :: 0 <= k < i ==> out[k] == seen[order[k]]
    {
      out := out + [seen[order[i]]];
    }
    assert Names(out) == order;
    forall i | 0 <= i < |out|
      ensures Some(out[i]) == LastOf(all, out[i].name)
    {
      HeldName(seen, all, order[i]);
    }
  }

  ghost predicate HoldsLast(seen: map<string, Cookie>, cs: seq<Cookie>) {
    forall n :: n in seen ==> Some(seen[n]) == LastOf(cs, n)
  }

  lemma SeenSnoc(seen: map<string, Cookie>, cs: seq<Cookie>, c: Cookie)
    requires HoldsLast(seen, cs)
    ensures HoldsLast(seen[c.name := c], cs + [c])
  {
    hide LastOf;
    forall n | n in seen[c.name := c]
      ensures Some(seen[c.name := c][n]) == LastOf(cs + [c], n)
    {
      LastOfSnoc(cs, c, n);
    }
  }

  lemma HeldName(seen: map<string, Cookie>, cs: seq<Cookie>, n: string)
    requires HoldsLast(seen, cs) && n in seen
    ensures Some(seen[n]) == LastOf(cs, n) && seen[n].name == n
  {
    LastOfNamed(cs, n);
  }

  lemma FirstsSnoc(ns: seq<string>, n: string)
    ensures Firsts(ns + [n]) == Firsts(ns) + if n in ns then [] else [n]
  {
    SnocFacts(ns, n);
  }

  lemma LastOfSnoc(cs: seq<Cookie>, c: Cookie, n: string)
    ensures LastOf(cs + [c], n) == if c.name == n then Some(c) else LastOf(cs, n)
  {
    SnocFacts(cs, c);
  }

  /** `Firsts` keeps the set of names and drops repetitions. */
  lemma {:induction false} FirstsMembers(ns: seq<string>, n: string)
    ensures n in Firsts(ns) <==> n in ns
  {
    if ns != [] {
      var before, last := ns[..|ns| - 1], ns[|ns| - 1];
      FirstsMembers(before, n);
      assert ns == before + [last];
    }
  }

  lemma {:induction false} LastOfNamed(cs: seq<Cookie>, n: string)
    ensures LastOf(cs, n).Some? <==> n in Names(cs)
    ensures LastOf(cs, n).Some? ==> LastOf(cs, n).value.name == n && LastOf(cs, n).value in cs
  {
    if cs != [] {
      var before, last := cs[..|cs| - 1], cs[|cs| - 1];
      LastOfNamed(before, n);
      assert Names(cs) == Names(before) + [last.name];
    }
  }

  // ---- The jar against the replay ----------------------------------------------------------------------------

  /** The record holds exactly the current cookies. */
  lemma {:induction false} SeenIsCurrent(events: seq<Cookie>, n: string)
    ensures n in Replay(events).seen <==> Current(events, n).Some?
    ensures n in Replay(events).seen ==> Some(Replay(events).seen[n]) == Current(events, n)
  {
    if events != [] {
      SeenIsCurrent(events[..|events| - 1], n);
    }
  }

  /** Although keys may repeat, their first occurrences are those of all settings. */
  lemma {:induction false} KeysAreSettings(events: seq<Cookie>)
    ensures Firsts(Replay(events).keys) == Firsts(Settings(events))
    ensures forall n :: n in Replay(events).seen ==> n in Replay(events).keys
    ensures forall n :: n in Replay(events).keys <==> n in Settings(events)
  {
    hide Firsts;
    if events != [] {
      var before, last := events[..|events| - 1], events[|events| - 1];
      KeysAreSettings(before);
      FirstsSnoc(Replay(before).keys, last.name);
      FirstsSnoc(Settings(before), last.name);
      assert Firsts(Settings(before)) + [] == Firsts(Settings(before)) && Settings(before) + [] == Settings(before);
      assert Settings(events) == Settings(before) + if last.dead then [] else [last.name];
    }
  }

  lemma {:induction false} ListedNames(events: seq<Cookie>, r: Record, keys: seq<string>)
    requires r == Replay(events)
    ensures Names(Listed(r, keys)) == Keep(keys, Alive(events))
    ensures forall c :: c in Listed(r, keys) ==> Some(c) == Current(events, c.name)
  {
    hide Replay, Current;
    if keys != [] {
      var before, last := keys[..|keys| - 1], keys[|keys| - 1];
      ListedNames(events, r, before);
      assert keys == before + [last];
      KeepSnoc(before, Alive(events), last);
      SeenIsCurrent(events, last);
      if last in r.seen {
        CurrentNamed(events, last);
        assert Names(Listed(r, before) + [r.seen[last]]) == Names(Listed(r, before)) + [last];
      }
    }
  }

  lemma CurrentNamed(events: seq<Cookie>, n: string)
    requires Current(events, n).Some?
    ensures Current(events, n).value.name == n
  {
    LastOfNamed(events, n);
  }

  lemma {:induction false} FirstsOfKeep(ns: seq<string>, p: string -> bool)
    ensures Firsts(Keep(ns, p)) == Keep(Firsts(ns), p)
  {
    if ns != [] {
      var before, last := ns[..|ns| - 1], ns[|ns| - 1];
      FirstsOfKeep(before, p);
      KeepMember(before, p, last);
      assert ns == before + [last];
      KeepSnoc(before, p, last);
      FirstsSnoc(Keep(before, p), last);
      KeepSnoc(Firsts(before), p, last);
      assert Keep(before, p) + [] == Keep(before, p) && Firsts(before) + [] == Firsts(before);
    }
  }

  lemma KeepSnoc(ns: seq<string>, p: string -> bool, n: string)
    ensures Keep(ns + [n], p) == Keep(ns, p) + if p(n) then [n] else []
  {
    KeepConcat(ns, [n], p);
    assert Keep([n], p) == (if p(n) then [n] else []) + Keep([n][1..], p);
  }

  /** What follows does not depend on repetitions before it. */
  lemma {:induction false} FirstsCongruence(a: seq<string>, b: seq<string>, rest: seq<string>)
    requires Firsts(a) == Firsts(b)
    ensures Firsts(a + rest) == Firsts(b + rest)
  {
    hide Firsts;
    if rest == [] {
      assert a + rest == a && b + rest == b;
    } else {
      var before, last := rest[..|rest| - 1], rest[|rest| - 1];
      FirstsCongruence(a, b, before);
      assert a + rest == (a + before) + [last] && b + rest == (b + before) + [last];
      FirstsSnoc(a + before, last);
      FirstsSnoc(b + before, last);
      FirstsMembers(a, last);
      FirstsMembers(b, last);
    }
  }

  /** The key list and the list of settings give the same report order. */
  lemma OrderAgrees(events: seq<Cookie>, response: seq<Cookie>)
    ensures Firsts(Keep(Replay(events).keys, Alive(events)) + Names(response)) == ReportOrder(events, response)
  {
    hide Firsts, Keep, Replay, Settings, Alive;
    KeysAreSettings(events);
    FirstsOfKeep(Replay(events).keys, Alive(events));
    FirstsOfKeep(Settings(events), Alive(events));
    FirstsCongruence(Keep(Replay(events).keys, Alive(events)), Keep(Settings(events), Alive(events)), Names(response));
  }

  lemma {:induction false} LastOfConcat(a: seq<Cookie>, b: seq<Cookie>, n: string)
    ensures LastOf(a + b, n) == match LastOf(b, n) case Some(c) => Some(c) case None => LastOf(a, n)
  {
    if b == [] {
      assert a + b == a;
    } else {
      assert (a + b)[..|a + b| - 1] == a + b[..|b| - 1];
      LastOfConcat(a, b[..|b| - 1], n);
    }
  }

  /** What the merge produces is the report of the replay: each name once, in report order, with the
      reported value. */
  lemma MergeIsReport(events: seq<Cookie>, response: seq<Cookie>, out: seq<Cookie>)
    requires var all := Listed(Replay(events), Replay(events).keys) + response;
             Names(out) == Firsts(Names(all)) &&
             forall i :: 0 <= i < |out| ==> Some(out[i]) == LastOf(all, out[i].name)
    ensures Names(out) == ReportOrder(events, response)
    ensures forall i :: 0 <= i < |out| ==> Some(out[i]) == ReportValue(events, response, out[i].name)
  {
    hide Firsts, Keep, Replay, Listed, LastOf, ReportOrder, Current, Alive;
    var jar := Listed(Replay(events), Replay(events).keys);
    ListedNames(events, Replay(events), Replay(events).keys);
    assert Names(jar + response) == Names(jar) + Names(response);
    OrderAgrees(events, response);
    forall i | 0 <= i < |out|
      ensures Some(out[i]) == ReportValue(events, response, out[i].name)
    {
      var n := out[i].name;
      LastOfConcat(jar, response, n);
      LastOfNamed(jar, n);
    }
  }

  /** The report names each cookie once, and exactly those that are current or in the response. */
  lemma ReportNames(events: seq<Cookie>, response: seq<Cookie>, n: string)
    ensures multiset(ReportOrder(events, response))[n] == if ReportValue(events, response, n).Some? then 1 else 0
  {
    hide Firsts, Keep, Settings, LastOf, Alive;
    var alive := Keep(Settings(events), Alive(events));
    FirstsOnce(alive + Names(response), n);
    FirstsMembers(alive + Names(response), n);
    KeepMember(Settings(events), Alive(events), n);
    AliveWasSet(events, n);
    LastOfNamed(response, n);
  }

  /** For each name the report gives what a browser would hold after the whole chain if and only if the final
      response does not end up deleting it: a deletion there is reported as a cookie. */
  lemma ReportIsCurrentIff(events: seq<Cookie>, response: seq<Cookie>, n: string)
    ensures ReportValue(events, response, n) == Current(events + response, n) <==>
            !(LastOf(response, n).Some? && LastOf(response, n).value.dead)
  {
    hide LastOf;
    LastOfConcat(events, response, n);
  }

  /** For instance any response whose last cookie is a deletion. */
  lemma DeletionReported(events: seq<Cookie>, response: seq<Cookie>, gone: Cookie)
    requires gone.dead
    ensures ReportValue(events, response + [gone], gone.name) == Some(gone)
    ensures Current(events + (response + [gone]), gone.name) == None
  {
    hide LastOf;
    LastOfSnoc(response, gone, gone.name);
    LastOfConcat(events, response + [gone], gone.name);
  }

  lemma {:induction false} FirstsOnce(ns: seq<string>, n: string)
    ensures multiset(Firsts(ns))[n] == if n in ns then 1 else 0
  {
    if ns != [] {
      var before, last := ns[..|ns| - 1], ns[|ns| - 1];
      FirstsOnce(before, n);
      assert ns == before + [last];
    }
  }

  lemma {:induction false} AliveWasSet(events: seq<Cookie>, n: string)
    ensures Alive(events)(n) <==> Current(events, n).Some?
    ensures Current(events, n).Some? ==> n in Settings(events)
  {
    if events != [] {
      AliveWasSet(events[..|events| - 1], n);
    }
  }

  /** Deleting a recorded cookie and setting it again repeats it among the keys, but it keeps its place. */
  lemma ResetKeepsPlace(events: seq<Cookie>, gone: Cookie, back: Cookie)
    requires gone.name in Replay(events).seen && gone.dead && back.name == gone.name && !back.dead
    ensures var after := Replay(events + [gone] + [back]);
            after.keys == Replay(events).keys + [back.name] && Firsts(after.keys) == Firsts(Replay(events).keys)
  {
    hide Replay, Firsts;
    ReplaySnoc(events, gone);
    ReplaySnoc(events + [gone], back);
    KeysAreSettings(events);
    FirstsSnoc(Replay(events).keys, back.name);
  }
}
