/** One round record of a match-info file: its tags, the per-round record they fill, and
    the tag router that decides which player or team slot a repeated tag writes to.
    The decoding of a round is stated here as functions of the bytes; the `DemoInfo`
    class carries it out in place and is proved to agree. */
module Rounds {
  import opened Words
  import opened Results
  import opened Primitives
  import opened SteamIds

  // ---------------------------------------------------------------------------
  // Tags

  const STEAM_ID_OR_TIMESTAMP: byte := 0x08
  const UNKNOWN_10: byte := 0x10
  const ROUND_HEADER_LENGTH: byte := 0x12
  const DEMO_URL: byte := 0x1a
  const KILLS: byte := 0x28
  const ROUND_DATA_LENGTH: byte := 0x2a
  const ASSISTS: byte := 0x30
  const DEATHS: byte := 0x38
  const SCORE: byte := 0x40
  const WINNER: byte := 0x58
  const TEAM_SCORE: byte := 0x60
  const GAME_TIME: byte := 0x78
  const ENEMY_KILLS: byte := 0x80
  const HEADSHOTS: byte := 0x88
  const MVPS: byte := 0xa8

  const PLAYER_SLOTS: nat := 10
  const TEAM_SLOTS: nat := 2

  /** The largest whole number of seconds a `TimeSpan` can hold. */
  const MAX_SPAN_SECONDS: int := 922337203685

  /** A per-player statistic carried as a varint. */
  predicate IsVarStat(tag: byte)
  {
    tag == KILLS || tag == ASSISTS || tag == DEATHS || tag == SCORE
  }

  /** A per-player statistic carried as a length byte and a big-endian integer. */
  predicate IsWideStat(tag: byte)
  {
    tag == ENEMY_KILLS || tag == HEADSHOTS || tag == MVPS
  }

  /** The fifteen values of the tag enumeration. */
  predicate IsKnownTag(tag: byte): (r: bool)
    ensures r <==> tag in {0x08, 0x10, 0x12, 0x1a, 0x2a, 0x28, 0x30, 0x38, 0x40, 0x58, 0x60, 0x78, 0x80, 0x88, 0xa8}
  {
    tag == STEAM_ID_OR_TIMESTAMP || tag == UNKNOWN_10 || tag == ROUND_HEADER_LENGTH ||
    tag == DEMO_URL || tag == ROUND_DATA_LENGTH || tag == WINNER || tag == TEAM_SCORE ||
    tag == GAME_TIME || IsVarStat(tag) || IsWideStat(tag)
  }

  predicate IsSpanSeconds(v: int)
  {
    -MAX_SPAN_SECONDS <= v <= MAX_SPAN_SECONDS
  }

  // ---------------------------------------------------------------------------
  // The round record

  datatype TeamStat = TeamStat(score: Option<int32>)

  datatype PlayerStat = PlayerStat(
    player: Option<SteamId>,
    kills: Option<int32>,
    assists: Option<int32>,
    deaths: Option<int32>,
    score: Option<int32>,
    enemyKills: Option<int32>,
    headshots: Option<int32>,
    mvps: Option<int32>)

  const NO_TEAM := TeamStat(None)
  const NO_PLAYER := PlayerStat(None, None, None, None, None, None, None, None)

  /** A round: its duration in seconds when present, two team slots and ten player slots. */
  datatype RoundRecord = RoundRecord(gameTime: Option<int>, teams: seq<TeamStat>, players: seq<PlayerStat>)

  const EMPTY_ROUND := RoundRecord(None, [NO_TEAM, NO_TEAM], [NO_PLAYER, NO_PLAYER, NO_PLAYER, NO_PLAYER, NO_PLAYER, NO_PLAYER, NO_PLAYER, NO_PLAYER, NO_PLAYER, NO_PLAYER])

  predicate WellFormed(round: RoundRecord)
  {
    |round.teams| == TEAM_SLOTS && |round.players| == PLAYER_SLOTS
  }

  /** The match-level fields that round records may overwrite: the end time (as the raw
      count of 2^-31 seconds since the Unix epoch), the second unknown, the demo URL and
      whether the match was a tie. */
  datatype MatchFields = MatchFields(endTime: Option<int>, unknown1: int, demoUrl: Option<string>, wasTie: bool)

  /** The tag router of one round: the tag read last, the slot the next repeat of it
      writes to, where the round's data ends, and where its header ends: 0 at the start,
      then the position after a 0x12 varint plus its length, which may again be 0). */
  datatype Router = Router(lastTag: byte, index: nat, dataEnd: int, headerEnd: int)

  /** A round starts with no tag seen, slot 0, its data running to the end of the stream
      and a header end of 0. The starting tag is none of the enumeration's, so the first
      known tag of a round always writes from slot 0. */
  function StartRouter(length: nat): (r: Router)
    ensures r.dataEnd == length && r.headerEnd == 0
    ensures !IsKnownTag(r.lastTag)
    ensures forall tag | IsKnownTag(tag) :: Retag(r, tag).index == 0
  {
    Router(0, 0, length, 0)
  }

  datatype RoundState = RoundState(router: Router, round: RoundRecord, fields: MatchFields)

  /** The tags that write into a player or team slot. */
  predicate IsSlotTag(tag: byte)
  {
    IsVarStat(tag) || IsWideStat(tag) || tag == TEAM_SCORE || tag == STEAM_ID_OR_TIMESTAMP
  }

  /** A tag that writes the slot the router points at: tag 0x08 does so only while the
      header end is not 0. */
  predicate WritesSlot(tag: byte, router: Router)
  {
    IsSlotTag(tag) && (tag == STEAM_ID_OR_TIMESTAMP ==> router.headerEnd != 0)
  }

  /** The number of slots a slot tag writes into. */
  function Capacity(tag: byte): nat
  {
    if tag == TEAM_SCORE then TEAM_SLOTS else PLAYER_SLOTS
  }

  // ---------------------------------------------------------------------------
  // Decoding one round

  /** A tag that differs from the previous one starts again at slot 0. */
  function Retag(router: Router, tag: byte): (r: Router)
    ensures r.lastTag == tag && r.dataEnd == router.dataEnd && r.headerEnd == router.headerEnd
    ensures r.index == if tag == router.lastTag then router.index else 0
  {
    if router.lastTag != tag then router.(lastTag := tag, index := 0) else router
  }

  /** The slot an array write would reach: indexing past the array fails. */
  function Slot(index: nat, capacity: nat): (r: Result<nat>)
    ensures r.Ok? <==> index < capacity
    ensures r.Ok? ==> r.value == index
    ensures r.Err? ==> r.error == SlotOverflow
  {
    if index < capacity then Ok(index) else Err(SlotOverflow)
  }

  /** The statistic `tag` carries, as held in a player's slot. */
  function StatOf(p: PlayerStat, tag: byte): Option<int32>
    requires IsVarStat(tag) || IsWideStat(tag)
  {
    if tag == KILLS then p.kills
    else if tag == ASSISTS then p.assists
    else if tag == DEATHS then p.deaths
    else if tag == SCORE then p.score
    else if tag == ENEMY_KILLS then p.enemyKills
    else if tag == HEADSHOTS then p.headshots
    else p.mvps
  }

  /** Sets the statistic `tag` carries in a player's slot; the player's SteamId and every
      other statistic are kept. */
  function SetStat(p: PlayerStat, tag: byte, v: int32): (r: PlayerStat)
    requires IsVarStat(tag) || IsWideStat(tag)
    ensures StatOf(r, tag) == Some(v) && r.player == p.player
    ensures forall t: byte | (IsVarStat(t) || IsWideStat(t)) && t != tag :: StatOf(r, t) == StatOf(p, t)
  {
    if tag == KILLS then p.(kills := Some(v))
    else if tag == ASSISTS then p.(assists := Some(v))
    else if tag == DEATHS then p.(deaths := Some(v))
    else if tag == SCORE then p.(score := Some(v))
    else if tag == ENEMY_KILLS then p.(enemyKills := Some(v))
    else if tag == HEADSHOTS then p.(headshots := Some(v))
    else p.(mvps := Some(v))
  }

  /** Stores `p` in player slot `i` and moves the router on to the next slot. */
  function WritePlayer(st: RoundState, i: nat, p: PlayerStat): RoundState
    requires i < |st.round.players|
  {
    st.(router := st.router.(index := i + 1), round := st.round.(players := st.round.players[i := p]))
  }

  /** Stores `t` in team slot `i` and moves the router on to the next slot. */
  function WriteTeam(st: RoundState, i: nat, t: TeamStat): RoundState
    requires i < |st.round.teams|
  {
    st.(router := st.router.(index := i + 1), round := st.round.(teams := st.round.teams[i := t]))
  }

  /** The payload of `tag`, read from `pos` (just after the tag byte) with the router
      already moved to the tag, and what it does to the state. A slot write checks the
      slot before the payload is read; a wide statistic reads its length byte first. */
  function Dispatch(data: seq<byte>, pos: nat, tag: byte, st: RoundState): (r: Result<Cursor<RoundState>>)
    requires pos <= |data|
    ensures r.Ok? ==> pos <= r.value.next <= |data|
    ensures r.Ok? ==> r.value.value.router.lastTag == st.router.lastTag
    ensures r.Ok? ==> |r.value.value.round.teams| == |st.round.teams| &&
                      |r.value.value.round.players| == |st.round.players|
  {
    if tag == ROUND_DATA_LENGTH then
      var c :- VarIntAt(data, pos);
      Ok(Cursor(st.(router := st.router.(dataEnd := AsInt64(c.next + c.value))), c.next))
    else if tag == STEAM_ID_OR_TIMESTAMP then
      if st.router.headerEnd == 0 then
        var c :- VarIntAt(data, pos);
        Ok(Cursor(st.(fields := st.fields.(endTime := Some(c.value))), c.next))
      else
        var i :- Slot(st.router.index, |st.round.players|);
        var c :- VarIntAt(data, pos);
        var id := Pack(AsUInt32(c.value), 1, 1, 1);
        Ok(Cursor(WritePlayer(st, i, st.round.players[i].(player := Some(id))), c.next))
    else if tag == UNKNOWN_10 then
      var c :- VarIntAt(data, pos);
      Ok(Cursor(st.(fields := st.fields.(unknown1 := c.value)), c.next))
    else if tag == ROUND_HEADER_LENGTH then
      var c :- VarIntAt(data, pos);
      Ok(Cursor(st.(router := st.router.(headerEnd := AsInt64(c.next + c.value))), c.next))
    else if tag == DEMO_URL then
      var c :- VarIntAt(data, pos);
      var b :- BytesAt(data, c.next, AsInt32(c.value));
      Ok(Cursor(st.(fields := st.fields.(demoUrl := Some(Ascii(b.value)))), b.next))
    else if IsVarStat(tag) then
      var i :- Slot(st.router.index, |st.round.players|);
      var c :- VarIntAt(data, pos);
      Ok(Cursor(WritePlayer(st, i, SetStat(st.round.players[i], tag, AsInt32(c.value))), c.next))
    else if tag == TEAM_SCORE then
      var i :- Slot(st.router.index, |st.round.teams|);
      var c :- VarIntAt(data, pos);
      Ok(Cursor(WriteTeam(st, i, TeamStat(Some(AsInt32(c.value)))), c.next))
    else if tag == WINNER then
      var c :- ByteAt(data, pos);
      Ok(Cursor(st.(fields := st.fields.(wasTie := c.value == 0)), c.next))
    else if tag == GAME_TIME then
      var c :- VarIntAt(data, pos);
      if IsSpanSeconds(c.value) then Ok(Cursor(st.(round := st.round.(gameTime := Some(c.value))), c.next))
      else Err(TimeOutOfRange)
    else if IsWideStat(tag) then
      var n :- ByteAt(data, pos);
      var i :- Slot(st.router.index, |st.round.players|);
      var c :- FixedIntAt(data, n.next, n.value);
      Ok(Cursor(WritePlayer(st, i, SetStat(st.round.players[i], tag, AsInt32(c.value))), c.next))
    else
      Err(UnknownTag(tag))
  }

  /** One iteration of the round loop: a tag byte, the router update, the payload. */
  function Step(data: seq<byte>, pos: nat, st: RoundState): (r: Result<Cursor<RoundState>>)
    requires pos <= |data|
    ensures r.Ok? ==> pos < r.value.next <= |data|
    ensures r.Ok? ==> r.value.value.router.lastTag == data[pos]
    ensures r.Ok? ==> |r.value.value.round.teams| == |st.round.teams| &&
                      |r.value.value.round.players| == |st.round.players|
  {
    var t :- ByteAt(data, pos);
    Dispatch(data, t.next, t.value, st.(router := Retag(st.router, t.value)))
  }

  /** The round loop: steps until the position reaches the end of the round's data,
      which a data-length tag may move while the loop runs. */
  function Loop(data: seq<byte>, pos: nat, st: RoundState): (r: Result<Cursor<RoundState>>)
    requires pos <= |data|
    decreases |data| - pos
    ensures r.Ok? ==> pos <= r.value.next <= |data| && r.value.next >= r.value.value.router.dataEnd
    ensures r.Ok? && pos < st.router.dataEnd ==> pos < r.value.next
    ensures r.Ok? && WellFormed(st.round) ==> WellFormed(r.value.value.round)
  {
    if pos >= st.router.dataEnd then Ok(Cursor(st, pos))
    else
      var c :- Step(data, pos, st);
      Loop(data, c.next, c.value)
  }

  /** The record of a whole round read from `pos`, starting from the match fields `fields`. */
  function RoundAt(data: seq<byte>, pos: nat, fields: MatchFields): (r: Result<Cursor<RoundState>>)
    requires pos <= |data|
    ensures r.Ok? ==> WellFormed(r.value.value.round)
    ensures r.Ok? && pos < |data| ==> pos < r.value.next
  {
    Loop(data, pos, RoundState(StartRouter(|data|), EMPTY_ROUND, fields))
  }

  // ---------------------------------------------------------------------------
  // The round record in place

  /** A round as the decoder fills it: the arrays are allocated once and written slot
      by slot. */
  class RoundData {
    var gameTime: Option<int>
    const teams: array<TeamStat>
    const players: array<PlayerStat>

    ghost predicate Valid()
      reads this
    {
      teams.Length == TEAM_SLOTS && players.Length == PLAYER_SLOTS
    }

    /** The round as a value: well formed while the arrays have their sizes. */
    function Record(): (r: RoundRecord)
      reads this, teams, players
      ensures Valid() ==> WellFormed(r)
    {
      RoundRecord(gameTime, teams[..], players[..])
    }

    constructor ()
      ensures Valid() && fresh(teams) && fresh(players)
      ensures Record() == EMPTY_ROUND
    {
      gameTime := None;
      teams := new TeamStat[TEAM_SLOTS](_ => NO_TEAM);
      players := new PlayerStat[PLAYER_SLOTS](_ => NO_PLAYER);
    }
  }

  // ---------------------------------------------------------------------------
  // Properties

  /** The payload of a slot tag: a varint, or for a wide statistic a width byte and a
      big-endian integer of that width. */
  function PayloadAt(data: seq<byte>, pos: nat, tag: byte): (r: Result<Cursor<int>>)
    ensures r.Ok? ==> pos < r.value.next <= |data|
  {
    if IsWideStat(tag) then
      var n :- ByteAt(data, pos);
      FixedIntAt(data, n.next, n.value)
    else VarIntAt(data, pos)
  }

  /** A player's slot after tag `tag` stored the payload `v` in it: the SteamId with the
      low 32 bits of `v` as account id for 0x08, the low 32 bits of `v` otherwise. */
  function Stored(p: PlayerStat, tag: byte, v: int): PlayerStat
    requires IsVarStat(tag) || IsWideStat(tag) || tag == STEAM_ID_OR_TIMESTAMP
  {
    if tag == STEAM_ID_OR_TIMESTAMP then p.(player := Some(Pack(AsUInt32(v), 1, 1, 1)))
    else SetStat(p, tag, AsInt32(v))
  }

  /** Stores the payload `v` in slot `i` of the array `tag` writes to. */
  function Put(round: RoundRecord, tag: byte, i: nat, v: int): RoundRecord
    requires IsSlotTag(tag)
    requires WellFormed(round) && i < Capacity(tag)
  {
    if tag == TEAM_SCORE then round.(teams := round.teams[i := TeamStat(Some(AsInt32(v)))])
    else round.(players := round.players[i := Stored(round.players[i], tag, v)])
  }

  /** The record after a run of `vals` written from slot `start` on. */
  function Filled(round: RoundRecord, tag: byte, start: nat, vals: seq<int64>): RoundRecord
    requires IsSlotTag(tag)
    requires WellFormed(round) && start + |vals| <= Capacity(tag)
    decreases |vals|
  {
    if vals == [] then round
    else Filled(Put(round, tag, start, vals[0]), tag, start + 1, vals[1..])
  }

  /** A run written from slot `start` stores its values in slots `start` up to
      `start + |vals|` of the array its tag writes to, and leaves every other slot, the
      other array and the game time alone. */
  lemma {:induction false} FilledSlots(round: RoundRecord, tag: byte, start: nat, vals: seq<int64>)
    requires IsSlotTag(tag)
    requires WellFormed(round) && start + |vals| <= Capacity(tag)
    ensures WellFormed(Filled(round, tag, start, vals))
    ensures Filled(round, tag, start, vals).gameTime == round.gameTime
    ensures tag == TEAM_SCORE ==> Filled(round, tag, start, vals).players == round.players
    ensures tag == TEAM_SCORE ==> forall j :: 0 <= j < TEAM_SLOTS ==>
      Filled(round, tag, start, vals).teams[j] ==
        if start <= j < start + |vals| then TeamStat(Some(AsInt32(vals[j - start]))) else round.teams[j]
    ensures tag != TEAM_SCORE ==> Filled(round, tag, start, vals).teams == round.teams
    ensures tag != TEAM_SCORE ==> forall j :: 0 <= j < PLAYER_SLOTS ==>
      Filled(round, tag, start, vals).players[j] ==
        if start <= j < start + |vals| then Stored(round.players[j], tag, vals[j - start]) else round.players[j]
    decreases |vals|
  {
    if vals != [] {
      var next := Put(round, tag, start, vals[0]);
      FilledSlots(next, tag, start + 1, vals[1..]);
    }
  }

  /** A tag byte that repeats the router's current tag, or starts a new one, leads to
      the same loop: the router is moved to the tag either way. */
  lemma LoopRetag(data: seq<byte>, pos: nat, st: RoundState)
    requires pos < |data| && pos < st.router.dataEnd
    ensures Loop(data, pos, st) == Loop(data, pos, st.(router := Retag(st.router, data[pos])))
  {
    var st1 := st.(router := Retag(st.router, data[pos]));
    assert Retag(st1.router, data[pos]) == Retag(st.router, data[pos]);
    assert Step(data, pos, st) == Step(data, pos, st1);
  }

  /** A step that succeeds hands the loop on to the position and state after it; a
      step that fails ends the loop with its error. */
  lemma LoopAfterStep(data: seq<byte>, pos: nat, st: RoundState)
    requires pos <= |data| && pos < st.router.dataEnd
    ensures Step(data, pos, st).Ok? ==>
      Loop(data, pos, st) == Loop(data, Step(data, pos, st).value.next, Step(data, pos, st).value.value)
    ensures Step(data, pos, st).Err? ==> Loop(data, pos, st) == Err(Step(data, pos, st).error)
  {
  }

  /** One element of a slot run: the tag repeats the router's tag, so the payload goes
      to the router's slot, or the array is full. */
  lemma SlotStep(data: seq<byte>, pos: nat, st: RoundState)
    requires pos < |data| && WritesSlot(data[pos], st.router)
    requires WellFormed(st.round) && st.router.lastTag == data[pos] && PayloadAt(data, pos + 1, data[pos]).Ok?
    ensures var tag, c, i := data[pos], PayloadAt(data, pos + 1, data[pos]).value, st.router.index;
      Step(data, pos, st) ==
        if i < Capacity(tag) then
          Ok(Cursor(st.(router := st.router.(index := i + 1), round := Put(st.round, tag, i, c.value)), c.next))
        else Err(SlotOverflow)
  {
    var tag := data[pos];
    assert Retag(st.router, tag) == st.router;
  }

  /** One element of a slot run, seen from the loop: the payload goes to the router's
      slot and the loop goes on after it. */
  lemma SlotLoop(data: seq<byte>, pos: nat, st: RoundState)
    requires pos < |data| && pos < st.router.dataEnd && WritesSlot(data[pos], st.router)
    requires WellFormed(st.round) && st.router.lastTag == data[pos] && PayloadAt(data, pos + 1, data[pos]).Ok?
    requires st.router.index < Capacity(data[pos])
    ensures var tag, c, i := data[pos], PayloadAt(data, pos + 1, data[pos]).value, st.router.index;
      Loop(data, pos, st) ==
        Loop(data, c.next, st.(router := st.router.(index := i + 1), round := Put(st.round, tag, i, c.value)))
  {
    SlotStep(data, pos, st);
    LoopAfterStep(data, pos, st);
  }

  /** A slot tag that repeats the router's tag once its array is full ends the round
      with a slot overflow (a wide statistic after reading its width byte). */
  lemma SlotLoopFull(data: seq<byte>, pos: nat, st: RoundState)
    requires pos < |data| && pos < st.router.dataEnd && WritesSlot(data[pos], st.router)
    requires IsWideStat(data[pos]) ==> pos + 1 < |data|
    requires WellFormed(st.round) && st.router.lastTag == data[pos]
    requires st.router.index >= Capacity(data[pos])
    ensures Loop(data, pos, st) == Err(SlotOverflow)
  {
    assert Retag(st.router, data[pos]) == st.router;
    SlotOverflowAtCapacity(data, pos, st);
    LoopAfterStep(data, pos, st);
  }

  /** `data` holds, from `pos` to `end`, a run of the payloads `vals`, each behind its
      own `tag` byte. */
  predicate RunAt(data: seq<byte>, pos: nat, tag: byte, vals: seq<int64>, end: nat)
    decreases |vals|
  {
    if vals == [] then pos == end
    else
      pos < |data| && data[pos] == tag && PayloadAt(data, pos + 1, tag).Ok? &&
      PayloadAt(data, pos + 1, tag).value.value == vals[0] &&
      RunAt(data, PayloadAt(data, pos + 1, tag).value.next, tag, vals[1..], end)
  }

  /** A run ends no earlier than it starts, and a non-empty one strictly later. */
  lemma {:induction false} RunAtBounds(data: seq<byte>, pos: nat, tag: byte, vals: seq<int64>, end: nat)
    requires RunAt(data, pos, tag, vals, end)
    ensures pos <= end && (vals != [] ==> pos < end <= |data|)
    decreases |vals|
  {
    if vals != [] {
      RunAtBounds(data, PayloadAt(data, pos + 1, tag).value.next, tag, vals[1..], end);
    }
  }

  /** The state after a run of `vals` written from the router's slot on. */
  function RunState(st: RoundState, tag: byte, vals: seq<int64>): RoundState
    requires IsSlotTag(tag)
    requires WellFormed(st.round) && st.router.index + |vals| <= Capacity(tag)
  {
    st.(router := st.router.(index := st.router.index + |vals|), round := Filled(st.round, tag, st.router.index, vals))
  }

  /** A run is its first element followed by the rest of the run. */
  lemma RunStateCons(st: RoundState, tag: byte, vals: seq<int64>)
    requires IsSlotTag(tag)
    requires WellFormed(st.round) && vals != [] && st.router.index + |vals| <= Capacity(tag)
    ensures var i := st.router.index;
      RunState(st, tag, vals) ==
        RunState(st.(router := st.router.(index := i + 1), round := Put(st.round, tag, i, vals[0])), tag, vals[1..])
  {
  }

  /** A run of one slot tag continuing the router's current tag, with room for
      all of it, writes its values into consecutive slots from the router's index on,
      and the round goes on after the run. */
  lemma {:induction false} SlotRunFits(data: seq<byte>, pos: nat, tag: byte, vals: seq<int64>, end: nat, st: RoundState)
    requires WritesSlot(tag, st.router)
    requires WellFormed(st.round) && st.router.lastTag == tag && st.router.index + |vals| <= Capacity(tag)
    requires RunAt(data, pos, tag, vals, end) && end <= |data| && end <= st.router.dataEnd
    ensures Loop(data, pos, st) == Loop(data, end, RunState(st, tag, vals))
    decreases |vals|
  {
    if vals == [] {
      assert RunState(st, tag, vals) == st;
    } else {
      var c := PayloadAt(data, pos + 1, tag).value;
      var i := st.router.index;
      RunAtBounds(data, pos, tag, vals, end);
      SlotLoop(data, pos, st);
      SlotRunFits(data, c.next, tag, vals[1..], end,
                  st.(router := st.router.(index := i + 1), round := Put(st.round, tag, i, c.value)));
      RunStateCons(st, tag, vals);
    }
  }

  /** A run of one slot tag continuing the router's current tag that is longer
      than the free slots ends the round with a slot overflow. */
  lemma {:induction false} SlotRunOverflows(data: seq<byte>, pos: nat, tag: byte, vals: seq<int64>, end: nat, st: RoundState)
    requires WritesSlot(tag, st.router)
    requires WellFormed(st.round) && st.router.lastTag == tag
    requires st.router.index <= Capacity(tag) < st.router.index + |vals|
    requires RunAt(data, pos, tag, vals, end) && end <= |data| && end <= st.router.dataEnd
    ensures Loop(data, pos, st) == Err(SlotOverflow)
    decreases |vals|
  {
    var c := PayloadAt(data, pos + 1, tag).value;
    var i := st.router.index;
    RunAtBounds(data, pos, tag, vals, end);
    if i >= Capacity(tag) {
      SlotLoopFull(data, pos, st);
    } else {
      SlotLoop(data, pos, st);
      SlotRunOverflows(data, c.next, tag, vals[1..], end,
                       st.(router := st.router.(index := i + 1), round := Put(st.round, tag, i, c.value)));
    }
  }

  /** A run of one slot tag after a different tag, no longer than the array it
      writes to, fills that array's slots 0 up to the run's length. */
  lemma SlotRun(data: seq<byte>, pos: nat, tag: byte, vals: seq<int64>, end: nat, st: RoundState)
    requires WritesSlot(tag, st.router)
    requires WellFormed(st.round) && st.router.lastTag != tag && 0 < |vals| <= Capacity(tag)
    requires RunAt(data, pos, tag, vals, end) && end <= st.router.dataEnd
    ensures end <= |data|
    ensures Loop(data, pos, st) ==
      Loop(data, end, RunState(st.(router := st.router.(lastTag := tag, index := 0)), tag, vals))
  {
    RunAtBounds(data, pos, tag, vals, end);
    LoopRetag(data, pos, st);
    SlotRunFits(data, pos, tag, vals, end, st.(router := Retag(st.router, tag)));
  }

  /** A run of one slot tag after a different tag that is longer than the array
      it writes to ends the round with a slot overflow. */
  lemma SlotRunOverflow(data: seq<byte>, pos: nat, tag: byte, vals: seq<int64>, end: nat, st: RoundState)
    requires WritesSlot(tag, st.router)
    requires WellFormed(st.round) && st.router.lastTag != tag && |vals| > Capacity(tag)
    requires RunAt(data, pos, tag, vals, end) && end <= st.router.dataEnd
    ensures Loop(data, pos, st) == Err(SlotOverflow)
  {
    RunAtBounds(data, pos, tag, vals, end);
    LoopRetag(data, pos, st);
    SlotRunOverflows(data, pos, tag, vals, end, st.(router := Retag(st.router, tag)));
  }

  /** A slot tag that finds its array full fails before its payload is read, whatever
      follows it (a wide statistic still needs its length byte). */
  lemma SlotOverflowAtCapacity(data: seq<byte>, pos: nat, st: RoundState)
    requires pos < |data| && WellFormed(st.round)
    requires IsVarStat(data[pos]) || data[pos] == TEAM_SCORE ||
             (data[pos] == STEAM_ID_OR_TIMESTAMP && st.router.headerEnd != 0) ||
             (IsWideStat(data[pos]) && pos + 1 < |data|)
    requires Retag(st.router, data[pos]).index >= Capacity(data[pos])
    ensures Step(data, pos, st) == Err(SlotOverflow)
  {
  }

  /** Tag 0x08 is the match end time while the header end is 0, and a player's SteamId
      (the low 32 bits of the varint as account id, with instance, type and universe 1)
      while it is not. */
  lemma SteamIdOrTimestamp(data: seq<byte>, pos: nat, u: nat, next: nat, st: RoundState)
    requires pos < |data| && data[pos] == STEAM_ID_OR_TIMESTAMP && WellFormed(st.round)
    requires u < TWO_64 && VarIntAt(data, pos + 1) == Ok(Cursor(AsInt64(u), next))
    ensures var router := Retag(st.router, STEAM_ID_OR_TIMESTAMP);
      var i := router.index;
      Step(data, pos, st) ==
        if st.router.headerEnd == 0 then
          Ok(Cursor(st.(router := router, fields := st.fields.(endTime := Some(AsInt64(u)))), next))
        else if i < PLAYER_SLOTS then
          Ok(Cursor(st.(router := router.(index := i + 1),
                        round := st.round.(players := st.round.players[i := st.round.players[i].(player := Some(Pack(u % TWO_32, 1, 1, 1)))])),
                    next))
        else Err(SlotOverflow)
  {
    LowWordOfInt64(u);
  }

  /** Of two winner records in one round only the second decides whether the match was
      a tie; the first one's byte is irrelevant. */
  lemma WinnerLastWins(pre: seq<byte>, first: byte, second: byte, post: seq<byte>, st: RoundState)
    requires |pre| + 4 <= st.router.dataEnd
    ensures var data := pre + [WINNER, first, WINNER, second] + post;
      Loop(data, |pre|, st) ==
        Loop(data, |pre| + 4, st.(router := Retag(st.router, WINNER), fields := st.fields.(wasTie := second == 0)))
  {
    var data := pre + [WINNER, first, WINNER, second] + post;
    assert data[|pre|] == WINNER && data[|pre| + 1] == first;
    assert data[|pre| + 2] == WINNER && data[|pre| + 3] == second;
    var st1 := st.(router := Retag(st.router, WINNER), fields := st.fields.(wasTie := first == 0));
    assert Step(data, |pre|, st) == Ok(Cursor(st1, |pre| + 2));
    assert Step(data, |pre| + 2, st1) ==
      Ok(Cursor(st.(router := Retag(st.router, WINNER), fields := st.fields.(wasTie := second == 0)), |pre| + 4));
  }

  /** A step whose tag is not the winner leaves the tie flag as it was. */
  lemma StepKeepsTie(data: seq<byte>, pos: nat, st: RoundState)
    requires pos < |data| && data[pos] != WINNER
    ensures Step(data, pos, st).Ok? ==> Step(data, pos, st).value.value.fields.wasTie == st.fields.wasTie
  {
  }

  /** No winner tag is read by the loop from `pos` on (or the loop fails before one is). */
  predicate NoWinnerFrom(data: seq<byte>, pos: nat, st: RoundState)
    requires pos <= |data|
    decreases |data| - pos
  {
    if pos >= st.router.dataEnd then true
    else match Step(data, pos, st)
      case Err(_) => true
      case Ok(c) => data[pos] != WINNER && NoWinnerFrom(data, c.next, c.value)
  }

  /** A loop that reads no winner tag ends with the tie flag it started with. */
  lemma {:induction false} TieKept(data: seq<byte>, pos: nat, st: RoundState)
    requires pos <= |data| && NoWinnerFrom(data, pos, st)
    ensures Loop(data, pos, st).Ok? ==> Loop(data, pos, st).value.value.fields.wasTie == st.fields.wasTie
    decreases |data| - pos
  {
    if pos < st.router.dataEnd && Step(data, pos, st).Ok? {
      var c := Step(data, pos, st).value;
      StepKeepsTie(data, pos, st);
      LoopAfterStep(data, pos, st);
      TieKept(data, c.next, c.value);
    }
  }

  /** The last winner tag of a round decides whether the match was a tie, whatever
      winner tags came before it. */
  lemma LastWinnerDecides(data: seq<byte>, pos: nat, st: RoundState)
    requires pos + 1 < |data| && pos < st.router.dataEnd && data[pos] == WINNER
    requires var st1 := st.(router := Retag(st.router, WINNER), fields := st.fields.(wasTie := data[pos + 1] == 0));
      NoWinnerFrom(data, pos + 2, st1)
    ensures Loop(data, pos, st).Ok? ==> Loop(data, pos, st).value.value.fields.wasTie == (data[pos + 1] == 0)
  {
    var st1 := st.(router := Retag(st.router, WINNER), fields := st.fields.(wasTie := data[pos + 1] == 0));
    assert Step(data, pos, st) == Ok(Cursor(st1, pos + 2));
    LoopAfterStep(data, pos, st);
    TieKept(data, pos + 2, st1);
  }

  /** A round data length moves the end of the round to that many bytes past the
      length's own varint, as a 64-bit sum. */
  lemma DataLengthStep(data: seq<byte>, pos: nat, st: RoundState)
    requires pos < |data| && data[pos] == ROUND_DATA_LENGTH && VarIntAt(data, pos + 1).Ok?
    ensures var c := VarIntAt(data, pos + 1).value;
      Step(data, pos, st) ==
        Ok(Cursor(st.(router := Retag(st.router, ROUND_DATA_LENGTH).(dataEnd := AsInt64(c.next + c.value))), c.next))
  {
  }

  /** After a round data length the loop runs on to the new end of the round. */
  lemma DataLengthSetsEnd(data: seq<byte>, pos: nat, st: RoundState)
    requires pos < |data| && pos < st.router.dataEnd && data[pos] == ROUND_DATA_LENGTH
    requires VarIntAt(data, pos + 1).Ok?
    ensures var c := VarIntAt(data, pos + 1).value;
      Loop(data, pos, st) ==
        Loop(data, c.next, st.(router := Retag(st.router, ROUND_DATA_LENGTH).(dataEnd := AsInt64(c.next + c.value))))
  {
    DataLengthStep(data, pos, st);
    LoopAfterStep(data, pos, st);
  }

  /** A game time is kept when it fits a `TimeSpan` and fails the decode otherwise. */
  lemma GameTimeRange(data: seq<byte>, pos: nat, v: int, next: nat, st: RoundState)
    requires pos < |data| && data[pos] == GAME_TIME && VarIntAt(data, pos + 1) == Ok(Cursor(v, next))
    ensures Step(data, pos, st) ==
      if IsSpanSeconds(v) then
        Ok(Cursor(st.(router := Retag(st.router, GAME_TIME), round := st.round.(gameTime := Some(v))), next))
      else Err(TimeOutOfRange)
  {
  }

  /** A step fails with an unknown-tag error exactly when its tag byte is outside the
      known set; a known tag fails only for want of bytes, room or range. */
  lemma UnknownTagFails(data: seq<byte>, pos: nat, st: RoundState)
    requires pos < |data|
    ensures Step(data, pos, st) == Err(UnknownTag(data[pos])) <==> !IsKnownTag(data[pos])
    ensures Step(data, pos, st).Err? && IsKnownTag(data[pos]) ==>
      Step(data, pos, st).error in {Truncated, SlotOverflow, NegativeCount, TimeOutOfRange}
  {
  }
}
