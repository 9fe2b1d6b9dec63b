/** Deathmatch scoring and endings (plugins/deathmatch/dm_rules.cpp, and the game loop around it in
    plugins/deathmatch/deathmatch_plugin.cpp). */
module Deathmatch {
  import opened JsonValue

  datatype Mode = Off | Ffa | Tdm

  const T: int := 2
  const CT: int := 3

  datatype Score = Score(id: int, name: string, team: int, kills: nat, deaths: nat, headshots: nat, reachedAt: real)

  datatype Board = Board(players: seq<Score>, tKills: nat, ctKills: nat)

  predicate OnTeam(team: int) { team == T || team == CT }

  // ---- the board -------------------------------------------------------------------------------

  function NewScore(id: int): Score { Score(id, "", 0, 0, 0, 0, 0.0) }

  /** Where a player stands on the board; one past the end when they are not on it. */
  function IndexOf(ps: seq<Score>, id: int): (i: nat)
    ensures i <= |ps| && (i < |ps| ==> ps[i].id == id) && forall k | 0 <= k < i :: ps[k].id != id
  {
    if ps == [] then 0
    else
      var i := IndexOf(ps[..|ps| - 1], id);
      if i < |ps| - 1 || ps[|ps| - 1].id == id then i else |ps|
  }

  /** The board with the player on it. */
  function With(ps: seq<Score>, id: int): (r: seq<Score>)
    ensures IndexOf(ps, id) < |r|
  {
    if IndexOf(ps, id) < |ps| then ps else ps + [NewScore(id)]
  }

  function Entry(ps: seq<Score>, id: int): Score { With(ps, id)[IndexOf(ps, id)] }

  /** The board with one player's entry replaced. */
  function Put(ps: seq<Score>, id: int, s: Score): seq<Score> { With(ps, id)[IndexOf(ps, id) := s] }

  function Joined(s: Score, team: int): Score { if OnTeam(team) then s.(team := team) else s }

  function See(b: Board, id: int, name: string, team: int): Board {
    if id == 0 then b
    else
      var s := Entry(b.players, id);
      b.(players := Put(b.players, id, Joined(if name == "" then s else s.(name := name), team)))
  }

  datatype Death = Death(attacker: int, attackerTeam: int, victim: int, victimTeam: int, headshot: bool, now: real)

  predicate Counts(m: Mode, d: Death) {
    && !m.Off? && d.victim != 0 && d.attacker != 0 && d.attacker != d.victim
    && (m.Tdm? ==> OnTeam(d.attackerTeam) && d.attackerTeam != d.victimTeam)
  }

  function Die(b: Board, d: Death): Board {
    var v := Entry(b.players, d.victim);
    b.(players := Put(b.players, d.victim, Joined(v.(deaths := v.deaths + 1), d.victimTeam)))
  }

  function Credit(m: Mode, b: Board, d: Death): Board {
    var a := Entry(b.players, d.attacker);
    var s := Joined(a.(kills := a.kills + 1, headshots := a.headshots + (if d.headshot then 1 else 0), reachedAt := d.now),
                    d.attackerTeam);
    Board(Put(b.players, d.attacker, s), b.tKills + (if m.Tdm? && d.attackerTeam == T then 1 else 0),
          b.ctKills + (if m.Tdm? && d.attackerTeam == CT then 1 else 0))
  }

  function Killed(m: Mode, b: Board, d: Death): Board {
    if m.Off? || d.victim == 0 then b
    else if Counts(m, d) then Credit(m, Die(b, d), d)
    else Die(b, d)
  }

  class Scoreboard {
    var players: seq<Score>
    var teamKills: array<nat>

    ghost predicate Valid()
      reads this
    {
      teamKills.Length == 4
    }

    function Value(): Board
      requires Valid()
      reads this, teamKills
    {
      Board(players, teamKills[T], teamKills[CT])
    }

    constructor ()
      ensures Valid() && Value() == Board([], 0, 0) && fresh(teamKills)
    {
      players := [];
      teamKills := new nat[4](i => 0);
    }

    method Get(id: int) returns (i: nat)
      requires Valid()
      modifies `players
      ensures Valid() && i == IndexOf(old(players), id) < |players| && players == With(old(players), id)
    {
      for k := 0 to |players|
        invariant forall j | 0 <= j < k :: players[j].id != id
        invariant players == old(players)
      {
        if players[k].id == id {
          FirstIs(players, id, k);
          return k;
        }
      }
      players := players + [NewScore(id)];
      return |players| - 1;
    }

    method SeePlayer(id: int, name: string, team: int)
      requires Valid()
      modifies `players
      ensures Valid() && Value() == See(old(Value()), id, name, team)
    {
      if id == 0 { return; }
      var i := Get(id);
      if name != "" { players := players[i := players[i].(name := name)]; }
      if OnTeam(team) { players := players[i := players[i].(team := team)]; }
    }

    method OnKill(m: Mode, d: Death) returns (counted: bool)
      requires Valid()
      modifies `players, teamKills
      ensures Valid() && Value() == Killed(m, old(Value()), d)
      ensures counted <==> Counts(m, d)
    {
      if m == Off || d.victim == 0 { return false; }
      var v := Get(d.victim);
      players := players[v := players[v].(deaths := players[v].deaths + 1)];
      if OnTeam(d.victimTeam) { players := players[v := players[v].(team := d.victimTeam)]; }
      assert Value() == Die(old(Value()), d);
      if d.attacker == 0 || d.attacker == d.victim { return false; }
      if m == Tdm && !OnTeam(d.attackerTeam) { return false; }
      if m == Tdm && d.attackerTeam == d.victimTeam { return false; }
      CreditKill(m, d);
      return true;
    }

    method CreditKill(m: Mode, d: Death)
      requires Valid() && (m.Tdm? ==> OnTeam(d.attackerTeam))
      modifies `players, teamKills
      ensures Valid() && Value() == Credit(m, old(Value()), d)
    {
      var a := Get(d.attacker);
      if OnTeam(d.attackerTeam) { players := players[a := players[a].(team := d.attackerTeam)]; }
      players := players[a := players[a].(kills := players[a].kills + 1)];
      if d.headshot { players := players[a := players[a].(headshots := players[a].headshots + 1)]; }
      players := players[a := players[a].(reachedAt := d.now)];
      if m == Tdm { teamKills[d.attackerTeam] := teamKills[d.attackerTeam] + 1; }
    }
  }

  lemma FirstIs(ps: seq<Score>, id: int, k: nat)
    requires k < |ps| && ps[k].id == id && forall j | 0 <= j < k :: ps[j].id != id
    ensures IndexOf(ps, id) == k
  {}

  // ---- ranking ---------------------------------------------------------------------------------

  predicate NameLess(a: string, b: string) {
    b != [] && (a == [] || a[0] < b[0] || (a[0] == b[0] && NameLess(a[1..], b[1..])))
  }

  /** Kills first, then fewer deaths, then who got there first, then the name. */
  predicate Above(x: Score, y: Score) {
    if x.kills != y.kills then x.kills > y.kills
    else if x.deaths != y.deaths then x.deaths < y.deaths
    else if x.kills > 0 && x.reachedAt != y.reachedAt then x.reachedAt < y.reachedAt
    else NameLess(x.name, y.name)
  }

  lemma {:induction false} NameOrder(a: string, b: string, c: string)
    ensures !(NameLess(a, b) && NameLess(b, a))
    ensures NameLess(a, c) ==> NameLess(a, b) || NameLess(b, c)
  {
    if a != [] && b != [] { NameOrder(a[1..], b[1..], if c == [] then [] else c[1..]); }
  }

  /** Nobody is above themselves both ways, and any third player is below the one or above the other. */
  lemma AboveOrder(x: Score, y: Score, z: Score)
    ensures !(Above(x, y) && Above(y, x))
    ensures Above(x, z) ==> Above(x, y) || Above(y, z)
  {
    NameOrder(x.name, y.name, z.name);
  }

  /** After everyone they are not above. */
  function Insert(s: Score, r: seq<Score>): seq<Score> {
    if r == [] then [s]
    else if Above(s, r[|r| - 1]) then Insert(s, r[..|r| - 1]) + [r[|r| - 1]]
    else r + [s]
  }

  /** A stable sort. */
  function Ranked(ps: seq<Score>): seq<Score> {
    if ps == [] then [] else Insert(ps[|ps| - 1], Ranked(ps[..|ps| - 1]))
  }

  predicate Sorted(r: seq<Score>) { forall i, j | 0 <= i < j < |r| :: !Above(r[j], r[i]) }

  lemma {:induction false} InsertKeeps(s: Score, r: seq<Score>)
    requires Sorted(r)
    ensures Sorted(Insert(s, r)) && multiset(Insert(s, r)) == multiset(r) + multiset{s}
  {
    hide Above;
    if r != [] {
      var last, before := r[|r| - 1], r[..|r| - 1];
      assert r == before + [last];
      if Above(s, last) {
        InsertKeeps(s, before);
        var t := Insert(s, before);
        forall i | 0 <= i < |t| ensures !Above(last, t[i]) {
          assert t[i] in multiset(t);
          if t[i] == s { AboveOrder(s, last, last); } else { assert t[i] in before; }
        }
      } else {
        forall i | 0 <= i < |r| ensures !Above(s, r[i]) { AboveOrder(s, last, r[i]); }
      }
    }
  }

  /** The ranking is the same players, best first. */
  lemma {:induction false} RankedKeeps(ps: seq<Score>)
    ensures Sorted(Ranked(ps)) && multiset(Ranked(ps)) == multiset(ps)
  {
    if ps != [] {
      var before := ps[..|ps| - 1];
      RankedKeeps(before);
      hide Insert;
      InsertKeeps(ps[|ps| - 1], Ranked(before));
      assert ps == before + [ps[|ps| - 1]];
    }
  }

  /** The order of the ranking: kills, then fewer deaths, then the earlier time. */
  lemma RankedBy(ps: seq<Score>, i: nat, j: nat)
    requires i < j < |Ranked(ps)|
    ensures var x, y := Ranked(ps)[i], Ranked(ps)[j];
      && x.kills >= y.kills
      && (x.kills == y.kills ==> x.deaths <= y.deaths)
      && (x.kills == y.kills > 0 && x.deaths == y.deaths ==> x.reachedAt <= y.reachedAt)
  {
    RankedKeeps(ps);
    hide Ranked;
    assert !Above(Ranked(ps)[j], Ranked(ps)[i]);
  }

  /** The first of the ranking is on the board, and nobody has more kills. */
  lemma Leader(ps: seq<Score>)
    requires ps != []
    ensures Ranked(ps) != [] && Ranked(ps)[0] in ps && forall i | 0 <= i < |ps| :: ps[i].kills <= Ranked(ps)[0].kills
  {
    RankedKeeps(ps);
    hide Ranked;
    var r := Ranked(ps);
    assert ps[0] in multiset(ps);
    assert r[0] in multiset(r);
    forall i | 0 <= i < |ps| ensures ps[i].kills <= r[0].kills {
      assert ps[i] in multiset(r);
      var j :| 0 <= j < |r| && r[j] == ps[i];
      if j > 0 { assert !Above(r[j], r[0]); }
    }
  }

  // ---- endings ---------------------------------------------------------------------------------

  datatype Outcome = Outcome(draw: bool, byLimit: bool, winnerId: int, winnerTeam: int, winnerKills: nat, runnerUpKills: nat)

  /** A limit of 0 is none. */
  datatype Settings = Settings(killLimitFfa: nat, killLimitTdm: nat, timeLimitMinutes: nat)

  function KillLimit(s: Settings, m: Mode): nat {
    if m.Tdm? then s.killLimitTdm else if m.Ffa? then s.killLimitFfa else 0
  }

  predicate TimeUp(s: Settings, elapsed: real) { s.timeLimitMinutes > 0 && elapsed >= s.timeLimitMinutes as real * 60.0 }

  function CheckEnd(m: Mode, b: Board, s: Settings, elapsed: real): Option<Outcome> {
    if m.Off? then None
    else
      var limit, timeUp := KillLimit(s, m), TimeUp(s, elapsed);
      if m.Tdm? then
        var hit := limit > 0 && (b.ctKills >= limit || b.tKills >= limit);
        if !hit && !timeUp then None
        else
          var (most, least) := if b.ctKills > b.tKills then (b.ctKills, b.tKills) else (b.tKills, b.ctKills);
          if b.ctKills == b.tKills then Some(Outcome(true, hit, 0, 0, most, least))
          else Some(Outcome(false, hit, 0, if b.ctKills > b.tKills then CT else T, most, least))
      else
        var r := Ranked(b.players);
        var hit := limit > 0 && r != [] && r[0].kills >= limit;
        if !hit && !timeUp then None
        else
          var most := if r == [] then 0 else r[0].kills;
          var next := if |r| > 1 then r[1].kills else 0;
          if r == [] || r[0].kills == 0 || (!hit && |r| > 1 && r[1].kills == r[0].kills)
          then Some(Outcome(true, hit, 0, 0, most, next))
          else Some(Outcome(false, hit, r[0].id, r[0].team, most, next))
  }

  /** A game under fixed settings, with the last counted kill. */
  datatype Game = Game(board: Board, ended: Option<Outcome>, last: Option<Death>)

  datatype Event = Seen(id: int, name: string, team: int) | Fell(d: Death, elapsed: real) | Tick(elapsed: real)

  /** Deaths and ticks count only while playing; the end is checked after every counted kill and tick. */
  function Next(m: Mode, s: Settings, g: Game, e: Event): Game {
    if g.ended.Some? then g
    else
      match e
      case Seen(id, name, team) => g.(board := See(g.board, id, name, team))
      case Tick(elapsed) => g.(ended := CheckEnd(m, g.board, s, elapsed))
      case Fell(d, elapsed) =>
        var b := Killed(m, g.board, d);
        if Counts(m, d) then Game(b, CheckEnd(m, b, s, elapsed), Some(d)) else g.(board := b)
  }

  function Play(m: Mode, s: Settings, es: seq<Event>): Game {
    if es == [] then Game(Board([], 0, 0), None, None) else Next(m, s, Play(m, s, es[..|es| - 1]), es[|es| - 1])
  }

  // ---- what every game keeps -------------------------------------------------------------------

  function Kills(ps: seq<Score>): nat { if ps == [] then 0 else Kills(ps[..|ps| - 1]) + ps[|ps| - 1].kills }

  function Deaths(ps: seq<Score>): nat { if ps == [] then 0 else Deaths(ps[..|ps| - 1]) + ps[|ps| - 1].deaths }

  predicate Distinct(ps: seq<Score>) { forall i, j | 0 <= i < j < |ps| :: ps[i].id != ps[j].id }

  /** One entry per player; kills never outnumber deaths; the teams' kills are the players' kills. */
  predicate Tallied(m: Mode, b: Board) {
    && Distinct(b.players) && Kills(b.players) <= Deaths(b.players)
    && b.tKills + b.ctKills == if m.Tdm? then Kills(b.players) else 0
  }

  /** Everyone but the last killer (or their team) is below the limit, and they are at most at it. */
  predicate AtMost(m: Mode, b: Board, limit: nat, top: nat, last: Option<Death>) {
    if m.Tdm? then
      && b.tKills <= (if last.Some? && last.value.attackerTeam == T then top else limit - 1)
      && b.ctKills <= (if last.Some? && last.value.attackerTeam == CT then top else limit - 1)
    else
      forall i | 0 <= i < |b.players| ::
        b.players[i].kills <= if last.Some? && last.value.attacker == b.players[i].id then top else limit - 1
  }

  predicate Ruled(m: Mode, s: Settings, g: Game) {
    var limit := KillLimit(s, m);
    && Tallied(m, g.board)
    && (limit > 0 ==> AtMost(m, g.board, limit, if g.ended.Some? then limit else limit - 1, g.last))
    && (g.ended.Some? && g.ended.value.byLimit ==>
          && limit > 0 && !g.ended.value.draw && g.last.Some? && Counts(m, g.last.value) && g.ended.value.winnerKills == limit
          && if m.Tdm? then g.ended.value.winnerTeam == g.last.value.attackerTeam
             else g.ended.value.winnerId == g.last.value.attacker)
  }

  // ---- what the scores count --------------------------------------------------------------------

  /** A kill by `id`: of another player, and in team mode of another team by someone on a team (2 or 3). */
  predicate KillBy(m: Mode, d: Death, id: int) {
    && id != 0 && d.attacker == id && d.victim != 0 && d.victim != id
    && (m == Tdm ==> (d.attackerTeam == 2 || d.attackerTeam == 3) && d.attackerTeam != d.victimTeam)
  }

  function KillsBy(m: Mode, es: seq<Event>, id: int): nat {
    if es == [] then 0
    else
      var e := es[|es| - 1];
      KillsBy(m, es[..|es| - 1], id) + (if e.Fell? && KillBy(m, e.d, id) then 1 else 0)
  }

  function DeathsOf(es: seq<Event>, id: int): nat {
    if es == [] then 0
    else
      var e := es[|es| - 1];
      DeathsOf(es[..|es| - 1], id) + (if e.Fell? && id != 0 && e.d.victim == id then 1 else 0)
  }

  lemma PutEntry(ps: seq<Score>, id: int, s: Score, other: int)
    requires s.id == id
    ensures Entry(Put(ps, id, s), other) == if other == id then s else Entry(ps, other)
  {
    var with, i := With(ps, id), IndexOf(ps, id);
    var r := with[i := s];
    if other == id {
      FirstIs(r, id, i);
    } else {
      var k := IndexOf(ps, other);
      if k < |ps| { FirstIs(r, other, k); } else { NotOn(r, other); }
    }
  }

  lemma NotOn(ps: seq<Score>, id: int)
    requires forall k | 0 <= k < |ps| :: ps[k].id != id
    ensures IndexOf(ps, id) == |ps|
  {}

  /** One death changes the scores of nobody but the killer and the victim, and which time ranks them. */
  lemma EventScores(m: Mode, b: Board, d: Death, id: int)
    requires !m.Off?
    ensures var before, after := Entry(b.players, id), Entry(Killed(m, b, d).players, id);
      && after.kills == before.kills + (if KillBy(m, d, id) then 1 else 0)
      && after.deaths == before.deaths + (if id != 0 && d.victim == id then 1 else 0)
      && after.headshots == before.headshots + (if KillBy(m, d, id) && d.headshot then 1 else 0)
      && after.reachedAt == (if KillBy(m, d, id) then d.now else before.reachedAt) && after.name == before.name
  {
    hide Entry, Put;
    if d.victim != 0 {
      EntryId(b.players, d.victim);
      var v := Entry(b.players, d.victim);
      var dead := Joined(v.(deaths := v.deaths + 1), d.victimTeam);
      PutEntry(b.players, d.victim, dead, id);
      if Counts(m, d) {
        var c := Die(b, d);
        PutEntry(b.players, d.victim, dead, d.attacker);
        EntryId(c.players, d.attacker);
        var a := Entry(c.players, d.attacker);
        var s := Joined(a.(kills := a.kills + 1, headshots := a.headshots + (if d.headshot then 1 else 0), reachedAt := d.now),
                        d.attackerTeam);
        PutEntry(c.players, d.attacker, s, id);
      }
    }
  }

  lemma SeenScores(b: Board, id: int, name: string, team: int, other: int)
    ensures var before, after := Entry(b.players, other), Entry(See(b, id, name, team).players, other);
      after.kills == before.kills && after.deaths == before.deaths
  {
    hide Entry, Put;
    if id != 0 {
      EntryId(b.players, id);
      var s := Entry(b.players, id);
      PutEntry(b.players, id, Joined(if name == "" then s else s.(name := name), team), other);
    }
  }

  /** Every game, up to and with the event that ends it: a player's kills and deaths are exactly what happened. */
  lemma {:induction false} ScoresCount(m: Mode, s: Settings, es: seq<Event>, id: int)
    requires !m.Off? && (es != [] ==> Play(m, s, es[..|es| - 1]).ended.None?)
    ensures var e := Entry(Play(m, s, es).board.players, id); e.kills == KillsBy(m, es, id) && e.deaths == DeathsOf(es, id)
  {
    if es != [] {
      var before, e := es[..|es| - 1], es[|es| - 1];
      if before != [] { StillPlaying(m, s, before); }
      ScoresCount(m, s, before, id);
      var g := Play(m, s, before);
      hide Play, Entry, CheckEnd, Killed, See;
      match e
      case Seen(i, name, team) => SeenScores(g.board, i, name, team, id);
      case Tick(elapsed) =>
      case Fell(d, elapsed) => EventScores(m, g.board, d, id);
      PlayLast(m, s, es);
    }
  }

  lemma PlayLast(m: Mode, s: Settings, es: seq<Event>)
    requires es != []
    ensures Play(m, s, es) == Next(m, s, Play(m, s, es[..|es| - 1]), es[|es| - 1])
  {}

  /** A game that goes on went on before. */
  lemma StillPlaying(m: Mode, s: Settings, es: seq<Event>)
    requires es != [] && Play(m, s, es).ended.None?
    ensures Play(m, s, es[..|es| - 1]).ended.None?
  {
    hide CheckEnd, Killed, See;
  }

  lemma {:induction false} UpdateSums(ps: seq<Score>, i: nat, s: Score)
    requires i < |ps|
    ensures Kills(ps[i := s]) == Kills(ps) - ps[i].kills + s.kills && Deaths(ps[i := s]) == Deaths(ps) - ps[i].deaths + s.deaths
  {
    var before := ps[..|ps| - 1];
    if i < |before| {
      UpdateSums(before, i, s);
      assert ps[i := s][..|ps| - 1] == before[i := s];
    } else {
      assert ps[i := s][..|ps| - 1] == before;
    }
  }

  /** Replacing a player's entry: one entry each, and the sums move by the difference. */
  lemma PutSums(ps: seq<Score>, id: int, s: Score)
    requires Distinct(ps) && s.id == id
    ensures Distinct(Put(ps, id, s)) && Entry(ps, id).id == id
    ensures Kills(Put(ps, id, s)) == Kills(ps) - Entry(ps, id).kills + s.kills
    ensures Deaths(Put(ps, id, s)) == Deaths(ps) - Entry(ps, id).deaths + s.deaths
  {
    hide Kills, Deaths;
    WithSums(ps, id);
    UpdateSums(With(ps, id), IndexOf(ps, id), s);
  }

  lemma WithSums(ps: seq<Score>, id: int)
    requires Distinct(ps)
    ensures Distinct(With(ps, id)) && Kills(With(ps, id)) == Kills(ps) && Deaths(With(ps, id)) == Deaths(ps)
  {
    assert (ps + [NewScore(id)])[..|ps|] == ps;
  }

  /** Everyone else's entry is untouched. */
  lemma PutOthers(ps: seq<Score>, id: int, s: Score, i: nat)
    requires i < |Put(ps, id, s)|
    ensures Put(ps, id, s)[i] == s || (i < |ps| && Put(ps, id, s)[i] == ps[i])
    ensures Entry(ps, id) == NewScore(id) || Entry(ps, id) in ps
  {}

  lemma SeeTallied(m: Mode, b: Board, id: int, name: string, team: int)
    requires Tallied(m, b)
    ensures Tallied(m, See(b, id, name, team))
  {
    hide Kills, Deaths, Put, Entry, Distinct;
    if id != 0 {
      EntryId(b.players, id);
      var s := Entry(b.players, id);
      PutSums(b.players, id, Joined(if name == "" then s else s.(name := name), team));
    }
  }

  lemma EntryId(ps: seq<Score>, id: int)
    ensures Entry(ps, id).id == id
  {}

  lemma KilledTallied(m: Mode, b: Board, d: Death)
    requires Tallied(m, b)
    ensures Tallied(m, Killed(m, b, d))
  {
    hide Kills, Deaths, Put, Entry, Distinct;
    if !m.Off? && d.victim != 0 {
      EntryId(b.players, d.victim);
      var v := Entry(b.players, d.victim);
      PutSums(b.players, d.victim, Joined(v.(deaths := v.deaths + 1), d.victimTeam));
      if Counts(m, d) {
        var c := Die(b, d);
        EntryId(c.players, d.attacker);
        var a := Entry(c.players, d.attacker);
        PutSums(c.players, d.attacker,
                Joined(a.(kills := a.kills + 1, headshots := a.headshots + (if d.headshot then 1 else 0), reachedAt := d.now),
                       d.attackerTeam));
      }
    }
  }

  /** Before the end nobody is at the limit; a counted kill brings only the killer there. */
  predicate BelowLimit(m: Mode, b: Board, limit: nat) {
    if m.Tdm? then b.tKills < limit && b.ctKills < limit
    else forall i | 0 <= i < |b.players| :: b.players[i].kills < limit
  }

  lemma SeeBelow(m: Mode, b: Board, id: int, name: string, team: int, limit: nat)
    requires BelowLimit(m, b, limit) && limit > 0
    ensures BelowLimit(m, See(b, id, name, team), limit)
  {
    hide Put, Entry;
    if id != 0 && !m.Tdm? {
      var s := Entry(b.players, id);
      var s' := Joined(if name == "" then s else s.(name := name), team);
      forall i | 0 <= i < |Put(b.players, id, s')| ensures Put(b.players, id, s')[i].kills < limit {
        PutOthers(b.players, id, s', i);
      }
    }
  }

  lemma DieBelow(m: Mode, b: Board, d: Death, limit: nat)
    requires BelowLimit(m, b, limit) && limit > 0
    ensures BelowLimit(m, Die(b, d), limit)
  {
    hide Put, Entry;
    if !m.Tdm? {
      var v := Entry(b.players, d.victim);
      var s := Joined(v.(deaths := v.deaths + 1), d.victimTeam);
      forall i | 0 <= i < |Put(b.players, d.victim, s)| ensures Put(b.players, d.victim, s)[i].kills < limit {
        PutOthers(b.players, d.victim, s, i);
      }
    }
  }

  lemma CreditAtMost(m: Mode, b: Board, d: Death, limit: nat)
    requires BelowLimit(m, b, limit) && limit > 0 && Counts(m, d)
    ensures AtMost(m, Credit(m, b, d), limit, limit, Some(d))
  {
    hide Put, Entry;
    if !m.Tdm? {
      EntryId(b.players, d.attacker);
      var a := Entry(b.players, d.attacker);
      var s := Joined(a.(kills := a.kills + 1, headshots := a.headshots + (if d.headshot then 1 else 0), reachedAt := d.now),
                      d.attackerTeam);
      var ps := Put(b.players, d.attacker, s);
      forall i | 0 <= i < |ps| ensures ps[i].kills <= if d.attacker == ps[i].id then limit else limit - 1 {
        PutOthers(b.players, d.attacker, s, i);
      }
    }
  }

  /** The end is declared exactly when the limit is reached, for the killer who reached it. */
  lemma EndRight(m: Mode, b: Board, s: Settings, elapsed: real, d: Death)
    requires AtMost(m, b, KillLimit(s, m), KillLimit(s, m), Some(d)) && KillLimit(s, m) > 0 && Counts(m, d)
    ensures var limit, o := KillLimit(s, m), CheckEnd(m, b, s, elapsed);
      && (o.None? ==> BelowLimit(m, b, limit))
      && (o.Some? && o.value.byLimit ==>
            && !o.value.draw && o.value.winnerKills == limit
            && if m.Tdm? then o.value.winnerTeam == d.attackerTeam else o.value.winnerId == d.attacker)
  {
    hide Ranked;
    if !m.Tdm? && b.players != [] { Leader(b.players); }
    if !m.Tdm? && b.players == [] { NoRanked(); }
  }

  lemma NoRanked()
    ensures Ranked([]) == []
  {}

  /** While nobody is at the limit, only the clock can end the game. */
  lemma EndByClock(m: Mode, b: Board, s: Settings, elapsed: real)
    requires KillLimit(s, m) > 0 ==> BelowLimit(m, b, KillLimit(s, m))
    ensures CheckEnd(m, b, s, elapsed).Some? ==> !CheckEnd(m, b, s, elapsed).value.byLimit && TimeUp(s, elapsed)
  {
    hide Ranked;
    if b.players != [] { Leader(b.players); } else { NoRanked(); }
  }

  /** Player `i` has strictly the most kills. */
  predicate BestOf(ps: seq<Score>, i: int) {
    0 <= i < |ps| && ps[i].kills > 0 && forall j | 0 <= j < |ps| && j != i :: ps[j].kills < ps[i].kills
  }

  /** Who wins by the clock: a draw exactly when nobody has strictly the most kills, otherwise the one who has;
      in team mode the team with more. */
  lemma ClockWinner(m: Mode, b: Board, s: Settings, elapsed: real)
    requires !m.Off? && Distinct(b.players) && s.timeLimitMinutes > 0 && elapsed >= s.timeLimitMinutes as real * 60.0
    requires KillLimit(s, m) > 0 ==> BelowLimit(m, b, KillLimit(s, m))
    ensures CheckEnd(m, b, s, elapsed).Some?
    ensures var o := CheckEnd(m, b, s, elapsed).value;
      && !o.byLimit
      && (m.Tdm? ==>
            && (o.draw <==> b.ctKills == b.tKills)
            && (b.ctKills > b.tKills ==> o.winnerTeam == 3) && (b.tKills > b.ctKills ==> o.winnerTeam == 2))
      && (m.Ffa? ==>
            && (o.draw <==> forall i | 0 <= i < |b.players| :: !BestOf(b.players, i))
            && (forall i | 0 <= i < |b.players| && BestOf(b.players, i) ::
                  o.winnerId == b.players[i].id && o.winnerTeam == b.players[i].team && o.winnerKills == b.players[i].kills))
  {
    EndByClock(m, b, s, elapsed);
    if m.Ffa? {
      if b.players == [] { NoRanked(); } else { TopTwo(b.players); }
    }
    hide Ranked;
  }

  lemma RankedSize(ps: seq<Score>)
    ensures |Ranked(ps)| == |ps|
  {
    RankedKeeps(ps);
    assert |multiset(Ranked(ps))| == |multiset(ps)|;
  }

  /** An entry and its place in the ranking. */
  lemma RankOf(ps: seq<Score>, i: nat) returns (k: nat)
    requires i < |ps|
    ensures k < |Ranked(ps)| && Ranked(ps)[k] == ps[i]
  {
    RankedKeeps(ps);
    hide Ranked;
    assert ps[i] in multiset(Ranked(ps));
    k :| 0 <= k < |Ranked(ps)| && Ranked(ps)[k] == ps[i];
  }

  lemma {:induction false} TwiceIn(ps: seq<Score>, x: Score)
    requires multiset(ps)[x] >= 2
    ensures exists i, j | 0 <= i < j < |ps| :: ps[i] == x && ps[j] == x
  {
    var last, before := ps[|ps| - 1], ps[..|ps| - 1];
    assert ps == before + [last];
    if last == x {
      assert x in multiset(before);
      var i :| 0 <= i < |before| && before[i] == x;
      assert ps[i] == x && ps[|ps| - 1] == x;
    } else {
      TwiceIn(before, x);
      var i, j :| 0 <= i < j < |before| && before[i] == x && before[j] == x;
      assert ps[i] == x && ps[j] == x;
    }
  }

  /** No entry stands twice in the ranking. */
  lemma RankedOnce(ps: seq<Score>)
    requires Distinct(ps) && |ps| > 1
    ensures |Ranked(ps)| > 1 && Ranked(ps)[0] != Ranked(ps)[1]
  {
    RankedSize(ps);
    RankedKeeps(ps);
    hide Ranked;
    var r := Ranked(ps);
    if r[0] == r[1] {
      assert r == [r[0], r[1]] + r[2..];
      assert multiset(r)[r[0]] >= 2;
      TwiceIn(ps, r[0]);
    }
  }

  /** The first of the ranking is strictly the best exactly when the second has fewer kills. */
  lemma TopTwo(ps: seq<Score>)
    requires Distinct(ps) && ps != []
    ensures var r := Ranked(ps);
      && r != [] && |r| == |ps| && (|r| > 1 ==> r[1].kills <= r[0].kills)
      && (forall i | 0 <= i < |ps| && BestOf(ps, i) :: ps[i] == r[0] && (|r| > 1 ==> r[1].kills < r[0].kills) && r[0].kills > 0)
      && (r[0].kills > 0 && (|r| > 1 ==> r[1].kills < r[0].kills) ==> exists i | 0 <= i < |ps| :: BestOf(ps, i))
  {
    RankedSize(ps);
    RankedKeeps(ps);
    if |ps| > 1 { RankedOnce(ps); }
    hide Ranked;
    var r := Ranked(ps);
    assert |r| > 1 ==> !Above(r[1], r[0]);
    forall i | 0 <= i < |ps| && BestOf(ps, i)
      ensures ps[i] == r[0] && (|r| > 1 ==> r[1].kills < r[0].kills) && r[0].kills > 0
    {
      var k := RankOf(ps, i);
      var a := PlaceOf(ps, r[0]);
      if k > 0 { assert !Above(r[k], r[0]); }
      if |r| > 1 { var c := PlaceOf(ps, r[1]); }
    }
    if r[0].kills > 0 && (|r| > 1 ==> r[1].kills < r[0].kills) {
      var a := PlaceOf(ps, r[0]);
      forall j | 0 <= j < |ps| && j != a ensures ps[j].kills < ps[a].kills {
        var k := RankOf(ps, j);
        if k > 1 { assert !Above(r[k], r[1]); }
        assert ps[j].id != ps[a].id;
      }
      assert BestOf(ps, a);
    }
  }

  lemma PlaceOf(ps: seq<Score>, x: Score) returns (i: nat)
    requires x in Ranked(ps)
    ensures i < |ps| && ps[i] == x
  {
    RankedKeeps(ps);
    hide Ranked;
    assert x in multiset(Ranked(ps));
    assert x in multiset(ps);
    i :| 0 <= i < |ps| && ps[i] == x;
  }

  lemma Playing(m: Mode, b: Board, limit: nat, last: Option<Death>)
    requires limit > 0
    ensures AtMost(m, b, limit, limit - 1, last) == BelowLimit(m, b, limit)
    ensures BelowLimit(m, b, limit) ==> AtMost(m, b, limit, limit, last)
  {}

  lemma NextRuled(m: Mode, s: Settings, g: Game, e: Event)
    requires Ruled(m, s, g)
    ensures Ruled(m, s, Next(m, s, g, e))
  {
    hide Tallied, AtMost, BelowLimit, CheckEnd, Killed, See;
    var limit := KillLimit(s, m);
    if g.ended.None? {
      if limit > 0 { Playing(m, g.board, limit, g.last); }
      match e
      case Seen(id, name, team) =>
        SeeTallied(m, g.board, id, name, team);
        if limit > 0 {
          SeeBelow(m, g.board, id, name, team, limit);
          Playing(m, See(g.board, id, name, team), limit, g.last);
        }
      case Tick(elapsed) =>
        EndByClock(m, g.board, s, elapsed);
      case Fell(d, elapsed) =>
        FellRuled(m, s, g, d, elapsed);
    }
  }

  lemma FellRuled(m: Mode, s: Settings, g: Game, d: Death, elapsed: real)
    requires Ruled(m, s, g) && g.ended.None?
    ensures Ruled(m, s, Next(m, s, g, Fell(d, elapsed)))
  {
    hide Tallied, AtMost, BelowLimit, CheckEnd, Credit, Die;
    var limit, b := KillLimit(s, m), Killed(m, g.board, d);
    KilledTallied(m, g.board, d);
    if limit > 0 {
      Playing(m, g.board, limit, g.last);
      DieBelow(m, g.board, d, limit);
      Playing(m, b, limit, g.last);
      if Counts(m, d) {
        CreditAtMost(m, Die(g.board, d), d, limit);
        EndRight(m, b, s, elapsed, d);
        Playing(m, b, limit, Some(d));
      }
    } else {
      EndByClock(m, b, s, elapsed);
    }
  }

  /** Every game, from any events: no score passes the kill limit, a game that ends by it is no draw, and
      its winner is who (or whose team) made the last counted kill. */
  lemma {:induction false} EveryGame(m: Mode, s: Settings, es: seq<Event>)
    ensures Ruled(m, s, Play(m, s, es))
  {
    hide Next, Ruled;
    if es == [] {
      EmptyGame(m, s);
    } else {
      EveryGame(m, s, es[..|es| - 1]);
      NextRuled(m, s, Play(m, s, es[..|es| - 1]), es[|es| - 1]);
    }
  }

  /** Each mode has its own limit, and nobody passes it. */
  lemma LimitHolds(m: Mode, s: Settings, es: seq<Event>)
    ensures var b := Play(m, s, es).board;
      && (m == Ffa && s.killLimitFfa > 0 ==> forall i | 0 <= i < |b.players| :: b.players[i].kills <= s.killLimitFfa)
      && (m == Tdm && s.killLimitTdm > 0 ==> b.tKills <= s.killLimitTdm && b.ctKills <= s.killLimitTdm)
  {
    EveryGame(m, s, es);
    hide Play;
  }

  lemma EmptyGame(m: Mode, s: Settings)
    ensures Ruled(m, s, Game(Board([], 0, 0), None, None))
  {
    assert Kills([]) == 0 && Deaths([]) == 0;
    hide Kills, Deaths;
  }
}
