/** The parts of the status stream beside the state (libs/readyup/status_snapshot.cpp, Hub::Process): what a
    client knows of them from its snapshot and the status events since. */
module StatusParts {
  import opened JsonValue
  import opened JsonText

  /** What the game thread submits (the parts that reach the stream). */
  datatype Inputs = Inputs(state: Json, platform: Json, summary: Json, versions: Json, selftest: Json,
                           updateSafe: bool, healthy: bool)

  /** The submitted values as printed. */
  datatype Texts = Texts(state: string, platform: string, summary: string, versions: string, selftest: string)

  function TextsOf(i: Inputs, fmt: real -> string): Texts {
    Texts(Dump(i.state, fmt), Dump(i.platform, fmt), Dump(i.summary, fmt), Dump(i.versions, fmt), Dump(i.selftest, fmt))
  }

  lemma StateText(i: Inputs, fmt: real -> string)
    ensures TextsOf(i, fmt).state == Dump(i.state, fmt)
  {}

  /** One server-sent event. A status frame lists the parts that changed, with their new values. */
  datatype Frame = PatchFrame(rev: nat, patch: Json) | StatusFrame(parts: seq<Member>)

  function Part(changed: bool, key: string, value: Json): seq<Member> {
    if changed then [Member(key, value)] else []
  }

  /** The parts of two submissions that print differently. */
  function ChangedParts(a: Inputs, b: Inputs, fmt: real -> string): seq<Member> {
    Part(Dump(a.platform, fmt) != Dump(b.platform, fmt), "platform", b.platform) +
    Part(a.updateSafe != b.updateSafe, "update_safe", Bool(b.updateSafe)) +
    Part(Dump(a.summary, fmt) != Dump(b.summary, fmt), "summary", b.summary) +
    Part(Dump(a.versions, fmt) != Dump(b.versions, fmt), "versions", b.versions) +
    Part(Dump(a.selftest, fmt) != Dump(b.selftest, fmt), "selftest", b.selftest) +
    Part(a.healthy != b.healthy, "healthy", Bool(b.healthy))
  }

  // ---- what a client knows -----------------------------------------------------------------------

  /** A client's parts, by name and as printed. */
  type Known = map<string, string>

  /** The printed members of a status event; a later one of the same name wins. */
  function Printed(ms: seq<Member>, fmt: real -> string): Known {
    if ms == [] then map[]
    else Printed(ms[..|ms| - 1], fmt)[ms[|ms| - 1].key := Dump(ms[|ms| - 1].value, fmt)]
  }

  /** What a client knows after a run of events: each status event overrides the parts it names. */
  function Overlay(known: Known, fs: seq<Frame>, fmt: real -> string): Known {
    if fs == [] then known
    else
      var before := Overlay(known, fs[..|fs| - 1], fmt);
      match fs[|fs| - 1]
      case PatchFrame(_, _) => before
      case StatusFrame(ms) => before + Printed(ms, fmt)
  }

  function Flag(b: bool): string { if b then "true" else "false" }

  /** The client has the current parts. `healthy` is in no snapshot: it is current once a status event named
      it. */
  ghost predicate Knows(known: Known, i: Inputs, fmt: real -> string) {
    && "platform" in known && known["platform"] == Dump(i.platform, fmt)
    && "update_safe" in known && known["update_safe"] == Flag(i.updateSafe)
    && "summary" in known && known["summary"] == Dump(i.summary, fmt)
    && "versions" in known && known["versions"] == Dump(i.versions, fmt)
    && "selftest" in known && known["selftest"] == Dump(i.selftest, fmt)
    && ("healthy" in known ==> known["healthy"] == Flag(i.healthy))
  }

  // ---- the proof ---------------------------------------------------------------------------------

  function Parts(i: Inputs, fmt: real -> string): Known {
    map["platform" := Dump(i.platform, fmt), "update_safe" := Flag(i.updateSafe), "summary" := Dump(i.summary, fmt),
        "versions" := Dump(i.versions, fmt), "selftest" := Dump(i.selftest, fmt), "healthy" := Flag(i.healthy)]
  }

  /** What a snapshot tells. */
  function Snapshot(i: Inputs, fmt: real -> string): Known {
    map["summary" := Dump(i.summary, fmt), "platform" := Dump(i.platform, fmt), "update_safe" := Flag(i.updateSafe),
        "versions" := Dump(i.versions, fmt), "selftest" := Dump(i.selftest, fmt)]
  }

  ghost predicate Agrees(known: Known, parts: Known) { forall k | k in known :: k in parts && known[k] == parts[k] }

  const SNAPSHOT_KEYS: set<string> := {"platform", "update_safe", "summary", "versions", "selftest"}

  lemma AgreesKnows(known: Known, i: Inputs, fmt: real -> string)
    requires Agrees(known, Parts(i, fmt)) && SNAPSHOT_KEYS <= known.Keys
    ensures Knows(known, i, fmt)
  {
    hide Dump;
    assert forall k | k in SNAPSHOT_KEYS :: k in known;
  }

  lemma PrintedPart(ms: seq<Member>, changed: bool, key: string, value: Json, fmt: real -> string)
    ensures Printed(ms + Part(changed, key, value), fmt) ==
            if changed then Printed(ms, fmt)[key := Dump(value, fmt)] else Printed(ms, fmt)
  {
    var all := ms + Part(changed, key, value);
    if changed { assert all[..|all| - 1] == ms; } else { assert all == ms; }
  }

  /** Of the named parts, the told ones are new and the others as before. */
  ghost predicate Tells(told: Known, names: set<string>, a: Known, b: Known) {
    Agrees(told, b) && forall k | k in names && k in a && k in b && k !in told :: a[k] == b[k]
  }

  lemma TellOne(ms: seq<Member>, names: set<string>, key: string, value: Json, a: Known, b: Known, fmt: real -> string)
    requires Tells(Printed(ms, fmt), names, a, b) && key in a && key in b && b[key] == Dump(value, fmt)
    ensures Tells(Printed(ms + Part(a[key] != b[key], key, value), fmt), names + {key}, a, b)
  {
    hide Dump, Printed;
    PrintedPart(ms, a[key] != b[key], key, value, fmt);
  }

  lemma PartsAre(i: Inputs, fmt: real -> string)
    ensures var p := Parts(i, fmt);
      && p.Keys == SNAPSHOT_KEYS + {"healthy"}
      && p["platform"] == Dump(i.platform, fmt) && p["update_safe"] == Dump(Bool(i.updateSafe), fmt)
      && p["summary"] == Dump(i.summary, fmt) && p["versions"] == Dump(i.versions, fmt)
      && p["selftest"] == Dump(i.selftest, fmt) && p["healthy"] == Dump(Bool(i.healthy), fmt)
  {
    assert Dump(Bool(i.updateSafe), fmt) == Flag(i.updateSafe) && Dump(Bool(i.healthy), fmt) == Flag(i.healthy);
    hide Dump;
  }

  lemma FlagPrints(a: bool, b: bool, fmt: real -> string)
    ensures Dump(Bool(a), fmt) != Dump(Bool(b), fmt) <==> a != b
  {}

  /** The changed parts, by what was and is printed. */
  lemma ChangedAre(a: Inputs, b: Inputs, x: Known, y: Known, fmt: real -> string)
    requires x == Parts(a, fmt) && y == Parts(b, fmt)
    ensures ChangedParts(a, b, fmt) ==
      Part(x["platform"] != y["platform"], "platform", b.platform) +
      Part(x["update_safe"] != y["update_safe"], "update_safe", Bool(b.updateSafe)) +
      Part(x["summary"] != y["summary"], "summary", b.summary) +
      Part(x["versions"] != y["versions"], "versions", b.versions) +
      Part(x["selftest"] != y["selftest"], "selftest", b.selftest) +
      Part(x["healthy"] != y["healthy"], "healthy", Bool(b.healthy))
  {
    PartsAre(a, fmt);
    PartsAre(b, fmt);
    FlagPrints(a.updateSafe, b.updateSafe, fmt);
    FlagPrints(a.healthy, b.healthy, fmt);
    hide Dump, Parts, Part;
  }

  /** What the changed parts tell: the new parts, and everything they leave out is as before. */
  lemma ChangedTell(a: Inputs, b: Inputs, fmt: real -> string)
    ensures Tells(Printed(ChangedParts(a, b, fmt), fmt), SNAPSHOT_KEYS + {"healthy"}, Parts(a, fmt), Parts(b, fmt))
  {
    hide Dump, Printed, Parts, Part, ChangedParts, Tells, SNAPSHOT_KEYS;
    ChangedAre(a, b, Parts(a, fmt), Parts(b, fmt), fmt);
    var first := TellFirst(a, b, fmt);
    TellRest(first, FIRST_KEYS, a, b, fmt);
    AllNames();
  }

  const FIRST_KEYS: set<string> := {"platform", "update_safe", "summary"}

  lemma AllNames()
    ensures FIRST_KEYS + {"versions"} + {"selftest"} == SNAPSHOT_KEYS
  {}

  lemma TellFirst(a: Inputs, b: Inputs, fmt: real -> string) returns (ms: seq<Member>)
    ensures var x, y := Parts(a, fmt), Parts(b, fmt);
      && "platform" in x && "platform" in y && "update_safe" in x && "update_safe" in y && "summary" in x && "summary" in y
      && ms == Part(x["platform"] != y["platform"], "platform", b.platform)
             + Part(x["update_safe"] != y["update_safe"], "update_safe", Bool(b.updateSafe))
             + Part(x["summary"] != y["summary"], "summary", b.summary)
      && Tells(Printed(ms, fmt), FIRST_KEYS, x, y)
  {
    var x, y := Parts(a, fmt), Parts(b, fmt);
    PartsAre(a, fmt);
    PartsAre(b, fmt);
    NothingTold(x, y, fmt);
    hide Dump, Printed, Parts, Part, Tells;
    var c1 := Part(x["platform"] != y["platform"], "platform", b.platform);
    assert [] + c1 == c1;
    TellOne([], {}, "platform", b.platform, x, y, fmt);
    var n1 := {} + {"platform"};
    TellOne(c1, n1, "update_safe", Bool(b.updateSafe), x, y, fmt);
    var c2 := c1 + Part(x["update_safe"] != y["update_safe"], "update_safe", Bool(b.updateSafe));
    TellOne(c2, n1 + {"update_safe"}, "summary", b.summary, x, y, fmt);
    ms := c2 + Part(x["summary"] != y["summary"], "summary", b.summary);
    assert n1 + {"update_safe"} + {"summary"} == FIRST_KEYS;
  }

  lemma TellRest(ms: seq<Member>, names: set<string>, a: Inputs, b: Inputs, fmt: real -> string)
    requires Tells(Printed(ms, fmt), names, Parts(a, fmt), Parts(b, fmt))
    ensures var x, y := Parts(a, fmt), Parts(b, fmt);
      Tells(Printed(ms + Part(x["versions"] != y["versions"], "versions", b.versions)
                       + Part(x["selftest"] != y["selftest"], "selftest", b.selftest)
                       + Part(x["healthy"] != y["healthy"], "healthy", Bool(b.healthy)), fmt),
            names + {"versions"} + {"selftest"} + {"healthy"}, x, y)
  {
    var x, y := Parts(a, fmt), Parts(b, fmt);
    PartsAre(a, fmt);
    PartsAre(b, fmt);
    hide Dump, Printed, Parts, Part, Tells;
    var c4 := ms + Part(x["versions"] != y["versions"], "versions", b.versions);
    TellOne(ms, names, "versions", b.versions, x, y, fmt);
    TellOne(c4, names + {"versions"}, "selftest", b.selftest, x, y, fmt);
    var c5 := c4 + Part(x["selftest"] != y["selftest"], "selftest", b.selftest);
    TellOne(c5, names + {"versions"} + {"selftest"}, "healthy", Bool(b.healthy), x, y, fmt);
  }

  lemma NothingTold(x: Known, y: Known, fmt: real -> string)
    ensures Tells(Printed([], fmt), {}, x, y)
  {}

  lemma OverlayPush(known: Known, fs: seq<Frame>, f: Frame, fmt: real -> string)
    ensures Overlay(known, fs + [f], fmt) ==
            if f.StatusFrame? then Overlay(known, fs, fmt) + Printed(f.parts, fmt) else Overlay(known, fs, fmt)
  {
    assert (fs + [f])[..|fs|] == fs;
  }

  /** Events override what was known before, whatever it was. */
  lemma {:induction false} OverlayOver(known: Known, fs: seq<Frame>, fmt: real -> string)
    ensures Overlay(known, fs, fmt) == known + Overlay(map[], fs, fmt)
  {
    if fs != [] {
      OverlayOver(known, fs[..|fs| - 1], fmt);
      hide Printed;
    }
  }

  lemma {:induction false} OverlaySplit(known: Known, a: seq<Frame>, b: seq<Frame>, fmt: real -> string)
    ensures Overlay(known, a + b, fmt) == Overlay(Overlay(known, a, fmt), b, fmt)
  {
    if b == [] {
      assert a + b == a;
    } else {
      OverlaySplit(known, a, b[..|b| - 1], fmt);
      assert (a + b)[..|a + b| - 1] == a + b[..|b| - 1];
    }
  }

  /** The last word of any stretch of events up to now is current. */
  ghost predicate LastWord(h: seq<Frame>, i: Inputs, fmt: real -> string) {
    forall q | 0 <= q <= |h| :: Agrees(Overlay(map[], h[q..], fmt), Parts(i, fmt))
  }

  /** A client that took its snapshot after `n` events and got every event since is informed. */
  ghost predicate Informed(n: nat, shown: Known, h: seq<Frame>, i: Inputs, fmt: real -> string) {
    && n <= |h| && SNAPSHOT_KEYS <= shown.Keys
    && Agrees(Overlay(shown, h[n..], fmt), Parts(i, fmt))
  }

  lemma Override(known: Known, told: Known, a: Known, b: Known)
    requires Agrees(known, a) && a.Keys == b.Keys
    requires Tells(told, b.Keys, a, b)
    ensures Agrees(known + told, b)
  {}

  lemma SameParts(a: Inputs, b: Inputs, fmt: real -> string)
    ensures Parts(a, fmt).Keys == Parts(b, fmt).Keys == SNAPSHOT_KEYS + {"healthy"}
    ensures Printed([], fmt) == map[] && forall known: Known :: known + map[] == known
  {
    PartsAre(a, fmt);
    PartsAre(b, fmt);
  }

  /** The event for a submission after another keeps every last word current. */
  lemma WordStatus(h: seq<Frame>, a: Inputs, b: Inputs, fmt: real -> string)
    requires LastWord(h, a, fmt)
    ensures LastWord(h + [StatusFrame(ChangedParts(a, b, fmt))], b, fmt)
    ensures ChangedParts(a, b, fmt) == [] ==> LastWord(h, b, fmt)
  {
    hide ChangedParts, Printed, Parts, Overlay, Tells, Agrees;
    ChangedTell(a, b, fmt);
    SameParts(a, b, fmt);
    var f := StatusFrame(ChangedParts(a, b, fmt));
    var told := Printed(f.parts, fmt);
    var g := h + [f];
    forall q | 0 <= q <= |g| ensures Agrees(Overlay(map[], g[q..], fmt), Parts(b, fmt)) {
      if q <= |h| {
        assert g[q..] == h[q..] + [f];
        OverlayPush(map[], h[q..], f, fmt);
        Override(Overlay(map[], h[q..], fmt), told, Parts(a, fmt), Parts(b, fmt));
      } else {
        assert g[q..] == [];
        NoWord(b, fmt);
      }
    }
    if f.parts == [] {
      forall q | 0 <= q <= |h| ensures Agrees(Overlay(map[], h[q..], fmt), Parts(b, fmt)) {
        Override(Overlay(map[], h[q..], fmt), told, Parts(a, fmt), Parts(b, fmt));
      }
    }
  }

  lemma NoWord(i: Inputs, fmt: real -> string)
    ensures Agrees(Overlay(map[], [], fmt), Parts(i, fmt))
  {}

  lemma InformedStatus(n: nat, shown: Known, h: seq<Frame>, a: Inputs, b: Inputs, fmt: real -> string)
    requires Informed(n, shown, h, a, fmt)
    ensures Informed(n, shown, h + [StatusFrame(ChangedParts(a, b, fmt))], b, fmt)
    ensures ChangedParts(a, b, fmt) == [] ==> Informed(n, shown, h, b, fmt)
  {
    hide ChangedParts, Printed, Parts, Overlay, Tells, Agrees;
    ChangedTell(a, b, fmt);
    SameParts(a, b, fmt);
    var f := StatusFrame(ChangedParts(a, b, fmt));
    assert (h + [f])[n..] == h[n..] + [f];
    OverlayPush(shown, h[n..], f, fmt);
    Override(Overlay(shown, h[n..], fmt), Printed(f.parts, fmt), Parts(a, fmt), Parts(b, fmt));
  }

  /** Patch events say nothing about the parts. */
  lemma WordPatch(h: seq<Frame>, f: Frame, i: Inputs, fmt: real -> string)
    requires LastWord(h, i, fmt) && f.PatchFrame?
    ensures LastWord(h + [f], i, fmt)
  {
    hide Parts, Overlay;
    var g := h + [f];
    forall q | 0 <= q <= |g| ensures Agrees(Overlay(map[], g[q..], fmt), Parts(i, fmt)) {
      if q <= |h| {
        assert g[q..] == h[q..] + [f];
        OverlayPush(map[], h[q..], f, fmt);
      } else {
        assert g[q..] == [];
        NoWord(i, fmt);
      }
    }
  }

  lemma InformedPatch(n: nat, shown: Known, h: seq<Frame>, f: Frame, i: Inputs, fmt: real -> string)
    requires Informed(n, shown, h, i, fmt) && f.PatchFrame?
    ensures Informed(n, shown, h + [f], i, fmt)
  {
    hide Parts, Overlay;
    assert (h + [f])[n..] == h[n..] + [f];
    OverlayPush(shown, h[n..], f, fmt);
  }

  lemma InformedNow(h: seq<Frame>, i: Inputs, fmt: real -> string)
    ensures Informed(|h|, Snapshot(i, fmt), h, i, fmt) && Knows(Snapshot(i, fmt), i, fmt)
  {
    hide Dump;
    assert h[|h|..] == [];
  }

  lemma InformedKnows(n: nat, shown: Known, h: seq<Frame>, i: Inputs, fmt: real -> string)
    requires Informed(n, shown, h, i, fmt)
    ensures Knows(Overlay(shown, h[n..], fmt), i, fmt)
  {
    hide Parts, SNAPSHOT_KEYS;
    OverlayOver(shown, h[n..], fmt);
    AgreesKnows(Overlay(shown, h[n..], fmt), i, fmt);
  }

  /** A client that got the events up to `t` and then, again, all from `q` on. */
  lemma ResumedKnows(n: nat, shown: Known, h: seq<Frame>, t: nat, q: nat, i: Inputs, fmt: real -> string)
    requires Informed(n, shown, h, i, fmt) && LastWord(h, i, fmt) && n <= t <= |h| && q <= t
    ensures Knows(Overlay(Overlay(shown, h[n..t], fmt), h[q..], fmt), i, fmt)
  {
    hide Parts, Overlay, SNAPSHOT_KEYS;
    var y := Overlay(shown, h[n..t], fmt);
    assert h[n..] == h[n..t] + h[t..];
    OverlaySplit(shown, h[n..t], h[t..], fmt);
    OverlayOver(shown, h[n..t], fmt);
    OverlayOver(y, h[t..], fmt);
    assert h[q..] == h[q..t] + h[t..];
    OverlaySplit(map[], h[q..t], h[t..], fmt);
    OverlayOver(Overlay(map[], h[q..t], fmt), h[t..], fmt);
    OverlayOver(y, h[q..], fmt);
    var r := Overlay(y, h[q..], fmt);
    assert Agrees(Overlay(map[], h[q..], fmt), Parts(i, fmt));
    assert Agrees(r, Parts(i, fmt));
    AgreesKnows(r, i, fmt);
  }
}
