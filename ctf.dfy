/**
 * The capture-the-flag state machine of the client/server game: one flag
 * record per team colour (`cs_flags[]`, indexed by colour, the "none"
 * colour included) and the team scores (`team_scores[]`).  A flag is at
 * home, dropped on the floor, or carried by a player; touching, dropping
 * and the per-tic timeout move it between these states.  The flag actors,
 * sounds and messages that accompany each transition are not modelled.
 */
module Ctf {

  /** teamcolor_t: none, red and blue (team_color_max is 3). */
  const TEAM_NONE: nat := 0
  const TEAM_RED: nat := 1
  const TEAM_BLUE: nat := 2
  const TEAM_COLOR_MAX: nat := 3

  const TICRATE: int := 35
  /** A dropped flag goes home once its timeout passes this many tics. */
  const FLAG_TIMEOUT: int := 10 * TICRATE

  datatype FlagState = Home | Dropped | Carried

  /** flag_t without its actor: who carries it, the world index at which
      it was picked up, the tics it has lain dropped, and its state. */
  datatype Flag = Flag(carrier: int, pickupTime: int, timeout: int, state: FlagState)

  /** A flag just returned home (CS_ReturnFlag). */
  const HOME_FLAG := Flag(0, 0, 0, Home)

  /** A flag just dropped by its carrier (CS_DropFlag). */
  const DROPPED_FLAG := Flag(0, 0, 0, Dropped)

  /** The opposing colour: blue for red, red for every other colour. */
  function OtherColor(color: int): (o: nat)
    ensures o == TEAM_RED || o == TEAM_BLUE
    ensures color == TEAM_RED <==> o == TEAM_BLUE
  {
    if color == TEAM_RED then TEAM_BLUE else TEAM_RED
  }

  datatype Option<T> = None | Some(value: T)

  /** CS_GiveFlag's flag: carried by playernum from world index `now`
      (None when the program is neither client nor server, in which case
      the pickup time is left as it was). */
  function Given(f: Flag, playernum: int, now: Option<int>): Flag {
    Flag(playernum, if now.Some? then now.value else f.pickupTime, 0, Carried)
  }

  /** The shape every flag keeps: a flag at home or dropped has no carrier
      and no pickup time, a dropped flag has lain at most FLAG_TIMEOUT tics,
      and only a dropped flag counts tics. */
  predicate Sane(f: Flag) {
    match f.state
    case Home => f == HOME_FLAG
    case Dropped => f.carrier == 0 && f.pickupTime == 0 && 0 <= f.timeout <= FLAG_TIMEOUT
    case Carried => f.timeout == 0
  }

  ghost predicate AllSane(fs: seq<Flag>) {
    forall c :: 0 <= c < |fs| ==> Sane(fs[c])
  }

  // ---------------------------------------------------------------------
  // Touching a flag
  // ---------------------------------------------------------------------

  /** CS_HandleFlagTouch on the flag records and scores: player
      `playernum` of team `team` touches the flag of `color`. */
  function Touch(fs: seq<Flag>, scores: seq<int>, playernum: int, team: int, color: nat, now: Option<int>)
    : (seq<Flag>, seq<int>)
    requires |fs| == TEAM_COLOR_MAX && |scores| == TEAM_COLOR_MAX && color < TEAM_COLOR_MAX
  {
    var o := OtherColor(color);
    if fs[color].state == Dropped then
      if team == color then (fs[color := HOME_FLAG], scores)
      else (fs[color := Given(fs[color], playernum, now)], scores)
    else if team == color then
      if fs[o].carrier == playernum then (fs[o := HOME_FLAG], scores[color := scores[color] + 1])
      else (fs, scores)
    else (fs[color := Given(fs[color], playernum, now)], scores)
  }

  /** Touching a flag keeps every flag sane. */
  lemma TouchKeepsSane(fs: seq<Flag>, scores: seq<int>, playernum: int, team: int, color: nat, now: Option<int>)
    requires |fs| == TEAM_COLOR_MAX && |scores| == TEAM_COLOR_MAX && color < TEAM_COLOR_MAX
    requires AllSane(fs)
    ensures AllSane(Touch(fs, scores, playernum, team, color, now).0)
  {
    var r := Touch(fs, scores, playernum, team, color, now).0;
    forall c | 0 <= c < |r|
      ensures Sane(r[c])
    {
      assert r[c] == fs[c] || r[c] == HOME_FLAG || (r[c].state == Carried && r[c].timeout == 0);
    }
  }

  /** Only a capture scores: a touch either leaves the scores as they are,
      or adds one to the toucher's own team alone, and that only when the
      touched flag is the team's own, not lying dropped, and the other
      team's flag names the toucher as its carrier; that flag goes home. */
  lemma ScoreOnlyOnCapture(fs: seq<Flag>, scores: seq<int>, playernum: int, team: int, color: nat, now: Option<int>)
    requires |fs| == TEAM_COLOR_MAX && |scores| == TEAM_COLOR_MAX && color < TEAM_COLOR_MAX
    ensures var (fs', scores') := Touch(fs, scores, playernum, team, color, now);
            scores' == scores ||
            (scores' == scores[color := scores[color] + 1] && team == color && fs[color].state != Dropped &&
             fs[OtherColor(color)].carrier == playernum && fs'[OtherColor(color)] == HOME_FLAG)
  {
  }

  /** After a touch the toucher holds an enemy flag, and a team member's
      touch sends the team's dropped flag home; nothing but the touched
      flag and, at a capture, the other team's flag changes. */
  lemma TouchOutcome(fs: seq<Flag>, scores: seq<int>, playernum: int, team: int, color: nat, now: Option<int>)
    requires |fs| == TEAM_COLOR_MAX && |scores| == TEAM_COLOR_MAX && color < TEAM_COLOR_MAX
    ensures var fs' := Touch(fs, scores, playernum, team, color, now).0;
            (team != color ==> fs'[color].state == Carried && fs'[color].carrier == playernum) &&
            (team == color && fs[color].state == Dropped ==> fs'[color] == HOME_FLAG) &&
            (forall c :: 0 <= c < TEAM_COLOR_MAX && c != color && c != OtherColor(color) ==> fs'[c] == fs[c])
  {
  }

  // ---------------------------------------------------------------------
  // The timeout of a dropped flag
  // ---------------------------------------------------------------------

  /** One tic of CS_CTFTicker for one flag: a dropped flag counts the tic
      and goes home once its count passes FLAG_TIMEOUT. */
  function Tick(f: Flag): Flag {
    if f.state != Dropped then f
    else if f.timeout + 1 > FLAG_TIMEOUT then HOME_FLAG
    else f.(timeout := f.timeout + 1)
  }

  /** The flag after n tics. */
  function Tics(f: Flag, n: nat): Flag
    decreases n
  {
    if n == 0 then f else Tics(Tick(f), n - 1)
  }

  lemma TickKeepsSane(f: Flag)
    requires Sane(f)
    ensures Sane(Tick(f))
  {
  }

  /** A sane dropped flag with timeout t lies dropped for the next
      FLAG_TIMEOUT - t tics and is home after FLAG_TIMEOUT + 1 - t. */
  lemma {:induction false} DroppedFlagReturns(f: Flag, n: nat)
    requires Sane(f) && f.state == Dropped && n <= FLAG_TIMEOUT + 1 - f.timeout
    ensures n < FLAG_TIMEOUT + 1 - f.timeout ==> Tics(f, n) == f.(timeout := f.timeout + n)
    ensures n == FLAG_TIMEOUT + 1 - f.timeout ==> Tics(f, n) == HOME_FLAG
    decreases n
  {
    if n > 0 {
      if f.timeout + 1 > FLAG_TIMEOUT {
        assert Tick(f) == HOME_FLAG;
        assert Tics(f, n) == Tics(HOME_FLAG, 0);
      } else {
        DroppedFlagReturns(Tick(f), n - 1);
      }
    }
  }

  /** A flag at home or carried is left alone by the ticker. */
  lemma {:induction false} OnlyDroppedFlagsTick(f: Flag, n: nat)
    requires f.state != Dropped
    ensures Tics(f, n) == f
    decreases n
  {
    if n > 0 {
      OnlyDroppedFlagsTick(f, n - 1);
    }
  }

  // ---------------------------------------------------------------------
  // The flag records
  // ---------------------------------------------------------------------

  /** cs_flags[] and team_scores[]. */
  class FlagTable {
    const flags: array<Flag>
    const teamScores: array<int>

    ghost predicate Valid()
      reads this, flags
    {
      flags.Length == TEAM_COLOR_MAX && teamScores.Length == TEAM_COLOR_MAX && AllSane(flags[..])
    }

    /** The zero-initialised `cs_flags` and `team_scores` statics: every
        flag is the record CS_ReturnFlag leaves, and no team has scored. */
    constructor ()
      ensures Valid() && fresh(flags) && fresh(teamScores)
      ensures flags[..] == [HOME_FLAG, HOME_FLAG, HOME_FLAG] && teamScores[..] == [0, 0, 0]
    {
      flags := new Flag[TEAM_COLOR_MAX](_ => HOME_FLAG);
      teamScores := new int[TEAM_COLOR_MAX](_ => 0);
      new;
      assert flags[..] == [HOME_FLAG, HOME_FLAG, HOME_FLAG];
      assert teamScores[..] == [0, 0, 0];
    }

    /** What CS_GetFlagCarriedByPlayer returns: the opposing team's flag
        when its carrier field names the player. */
    function FlagOf(playernum: int, team: int): (r: Option<nat>)
      reads this, flags
      requires Valid()
      ensures r.Some? ==> r.value == OtherColor(team) && flags[r.value].carrier == playernum
      ensures r.None? ==> flags[OtherColor(team)].carrier != playernum
    {
      var o := OtherColor(team);
      if flags[o].carrier == playernum then Some(o) else None
    }

    /** A flag at home or dropped has carrier 0, so player 0 is taken to
        carry the opposing team's flag whenever that flag is not carried
        by someone else. */
    lemma PlayerZeroMatchesResetFlags(team: int)
      requires Valid() && flags[OtherColor(team)].state != Carried
      ensures FlagOf(0, team) == Some(OtherColor(team))
    {
      assert Sane(flags[OtherColor(team)]);
    }

    /** A flag's carrier field names only the player carrying it, or 0. */
    lemma CarrierFieldMeaning(playernum: int, team: int)
      requires Valid() && playernum != 0
      ensures FlagOf(playernum, team).Some? ==> flags[OtherColor(team)].state == Carried
    {
      assert Sane(flags[OtherColor(team)]);
    }

    /** CS_ReturnFlag.  The flag itself may be in any shape: the ticker
        returns a flag whose count has just passed FLAG_TIMEOUT. */
    method ReturnFlag(color: nat)
      requires flags.Length == TEAM_COLOR_MAX && teamScores.Length == TEAM_COLOR_MAX && color < TEAM_COLOR_MAX
      requires forall c :: 0 <= c < TEAM_COLOR_MAX && c != color ==> Sane(flags[c])
      modifies flags
      ensures Valid() && flags[..] == old(flags[..])[color := HOME_FLAG]
    {
      flags[color] := flags[color].(carrier := 0);
      flags[color] := flags[color].(pickupTime := 0);
      flags[color] := flags[color].(timeout := 0);
      flags[color] := flags[color].(state := Home);
    }

    /** CS_GiveFlag: `now` is the client's or server's world index. */
    method GiveFlag(playernum: int, color: nat, now: Option<int>)
      requires Valid() && color < TEAM_COLOR_MAX
      modifies flags
      ensures Valid() && flags[..] == old(flags[..])[color := Given(old(flags[color]), playernum, now)]
    {
      flags[color] := flags[color].(carrier := playernum);
      if now.Some? {
        flags[color] := flags[color].(pickupTime := now.value);
      }
      flags[color] := flags[color].(timeout := 0);
      flags[color] := flags[color].(state := Carried);
    }

    /** CS_HandleFlagTouch: player `playernum` of team `team` touches the
        flag of `color`. */
    method HandleFlagTouch(playernum: int, team: int, color: nat, now: Option<int>)
      requires Valid() && color < TEAM_COLOR_MAX
      modifies flags, teamScores
      ensures Valid()
      ensures (flags[..], teamScores[..]) == Touch(old(flags[..]), old(teamScores[..]), playernum, team, color, now)
    {
      var otherColor := OtherColor(color);
      if flags[color].state == Dropped {
        if team == color {
          ReturnFlag(color);
        } else {
          GiveFlag(playernum, color, now);
        }
      } else {
        if team == color {
          if flags[otherColor].carrier == playernum {
            ReturnFlag(otherColor);
            teamScores[color] := teamScores[color] + 1;
          }
        } else {
          GiveFlag(playernum, color, now);
        }
      }
    }

    /** CS_GetFlagCarriedByPlayer. */
    method GetFlagCarriedByPlayer(playernum: int, team: int) returns (r: Option<nat>)
      requires Valid()
      ensures r == FlagOf(playernum, team)
    {
      var otherColor := if team == TEAM_RED then TEAM_BLUE else TEAM_RED;
      if flags[otherColor].carrier == playernum {
        return Some(otherColor);
      }
      return None;
    }

    /** CS_DropFlag: the flag the player is taken to carry is dropped
        where the player is; a player carrying none changes nothing. */
    method DropFlag(playernum: int, team: int)
      requires Valid()
      modifies flags
      ensures Valid()
      ensures match old(FlagOf(playernum, team))
              case None => flags[..] == old(flags[..])
              case Some(c) => flags[..] == old(flags[..])[c := DROPPED_FLAG]
    {
      var flag := GetFlagCarriedByPlayer(playernum, team);
      if flag.None? || flags[flag.value].carrier != playernum {
        return;
      }
      var color := flag.value;
      flags[color] := flags[color].(carrier := 0);
      flags[color] := flags[color].(pickupTime := 0);
      flags[color] := flags[color].(timeout := 0);
      flags[color] := flags[color].(state := Dropped);
    }

    /** The dropped-flag half of CS_CTFTicker: every flag takes one tic. */
    method Ticker()
      requires Valid()
      modifies flags
      ensures Valid()
      ensures forall c :: 0 <= c < TEAM_COLOR_MAX ==> flags[c] == Tick(old(flags[c]))
    {
      var color := TEAM_NONE;
      while color < TEAM_COLOR_MAX
        invariant 0 <= color <= TEAM_COLOR_MAX && Valid()
        invariant forall c :: 0 <= c < color ==> flags[c] == Tick(old(flags[c]))
        invariant forall c :: color <= c < TEAM_COLOR_MAX ==> flags[c] == old(flags[c])
      {
        if flags[color].state == Dropped {
          flags[color] := flags[color].(timeout := flags[color].timeout + 1);
          if flags[color].timeout > FLAG_TIMEOUT {
            ReturnFlag(color);
          }
        }
        color := color + 1;
      }
    }
  }
}
