/** The arena snapshot of src/arena.rs: the identifiers, the opaque shared
    block, the ranking decoded from its comma-separated wire form, and the
    per-viewer projection `ClientData::new`. */
module Arena {
  import opened Wrappers
  import opened RustStd

  /** Rust's `u32` and `usize` (a 64-bit target). */
  newtype u32 = x: int | 0 <= x < 0x1_0000_0000
  newtype usize = x: int | 0 <= x < 0x1_0000_0000_0000_0000

  datatype ArenaId = ArenaId(id: string)
  datatype UserId = UserId(id: string)
  datatype GameId = GameId(id: string)
  /** A 1-based position in the ranking. */
  datatype Rank = Rank(value: nat)

  /** `serde_json::Value`, carried through without being interpreted. */
  datatype JsValue =
    | JsNull
    | JsBool(b: bool)
    | JsNumber(n: int)
    | JsString(s: string)
    | JsArray(items: seq<JsValue>)
    | JsObject(entries: seq<(string, JsValue)>)

  /** The tournament-wide block, passed through to clients unchanged. */
  datatype ArenaShared = ArenaShared(
    nbPlayers: u32,
    duels: JsValue,
    secondsToFinish: Option<u32>,
    secondsToStart: Option<u32>,
    isStarted: Option<bool>,
    isFinished: Option<bool>,
    isRecentlyFinished: Option<bool>,
    featured: Option<JsValue>,
    podium: Option<JsValue>,
    pairingsClosed: Option<bool>,
    stats: Option<JsValue>,
    teamStanding: Option<JsValue>,
    duelTeams: Option<JsValue>)

  datatype FullRanking = FullRanking(ranking: map<UserId, Rank>)

  /** A full arena snapshot. `id` and `standing` are the fields the benchmark
      uses in addition to those declared in src/arena.rs. */
  datatype ArenaFull = ArenaFull(
    id: ArenaId,
    shared: ArenaShared,
    ongoingUserGames: map<UserId, GameId>,
    ranking: FullRanking,
    standing: seq<JsValue>)

  /** The tournament player record of src/mongo.rs (unused by the projection). */
  datatype Player = Player(withdraw: bool, team: Option<string>)

  /** The viewer's personal block. */
  datatype ClientMe = ClientMe(
    rank: Option<Rank>,
    withdraw: bool,
    gameId: Option<GameId>,
    pauseDelay: Option<u32>)

  datatype ClientData = ClientData(shared: ArenaShared, me: Option<ClientMe>)

  /** The ranking's wire separator. */
  const Comma: char := ','

  /** The user ids of the wire string, in wire order. */
  function RankingIds(s: string): (ids: seq<UserId>)
    ensures |ids| == |Split(s, Comma)| >= 1
    ensures forall i :: 0 <= i < |ids| ==> ids[i].id == Split(s, Comma)[i]
  {
    var tokens := Split(s, Comma);
    seq(|tokens|, i requires 0 <= i < |tokens| => UserId(tokens[i]))
  }

  /** `enumerate().map(|(index, uid)| (uid, Rank(index + 1)))`. */
  function Enumerated(ids: seq<UserId>): (pairs: seq<(UserId, Rank)>)
    ensures |pairs| == |ids|
    ensures forall i :: 0 <= i < |pairs| ==> pairs[i].0 == ids[i] && pairs[i].1.value == i + 1
  {
    seq(|ids|, i requires 0 <= i < |ids| => (ids[i], Rank(i + 1)))
  }

  /** `FullRanking::from(String)`: split on commas, then map each id to its
      1-based position, a later occurrence overwriting an earlier one. */
  function FullRankingFrom(s: string): (r: FullRanking)
    ensures forall i :: 0 <= i < |Split(s, Comma)| ==> UserId(Split(s, Comma)[i]) in r.ranking
    ensures 1 <= |r.ranking| <= |Split(s, Comma)|
    ensures var k := |Split(s, Comma)|; r.ranking[UserId(Split(s, Comma)[k - 1])] == Rank(k)
  {
    var pairs := Enumerated(RankingIds(s));
    var m := Collect(pairs);
    assert pairs[|pairs| - 1].0 in m;
    assert |m| >= 1;
    FullRanking(m)
  }

  /** Token `i` occurs nowhere after position `i`. */
  ghost predicate LastOccurrence(tokens: seq<string>, i: int)
  {
    0 <= i < |tokens| && forall j :: i < j < |tokens| ==> tokens[j] != tokens[i]
  }

  /** The last position at which `t` occurs. */
  ghost function LastIndexOf(tokens: seq<string>, t: string): (i: nat)
    requires t in tokens
    ensures LastOccurrence(tokens, i) && tokens[i] == t
  {
    if tokens[|tokens| - 1] == t then |tokens| - 1
    else
      assert t in tokens[..|tokens| - 1] by {
        var k :| 0 <= k < |tokens| && tokens[k] == t;
        assert tokens[..|tokens| - 1][k] == t;
      }
      LastIndexOf(tokens[..|tokens| - 1], t)
  }

  /** The ranking has exactly one key per distinct token of the split. */
  lemma RankingKeys(s: string)
    ensures FullRankingFrom(s).ranking.Keys == set t | t in Split(s, Comma) :: UserId(t)
  {
    var tokens := Split(s, Comma);
    var pairs := Enumerated(RankingIds(s));
    forall u: UserId
      ensures u in FullRankingFrom(s).ranking <==> u.id in tokens
    {
      CollectKeys(pairs, u);
      if u.id in tokens {
        var i :| 0 <= i < |tokens| && tokens[i] == u.id;
        assert pairs[i].0 == u;
      }
    }
  }

  /** The last occurrence of a token fixes its rank: position `i` gives
      `Rank(i + 1)`. */
  lemma RankingOfLastOccurrence(s: string, i: int)
    requires LastOccurrence(Split(s, Comma), i)
    ensures UserId(Split(s, Comma)[i]) in FullRankingFrom(s).ranking
    ensures FullRankingFrom(s).ranking[UserId(Split(s, Comma)[i])] == Rank(i + 1)
  {
    var pairs := Enumerated(RankingIds(s));
    CollectLastWins(pairs, i);
  }

  /** Conversely every rank in the map is one more than the last position of
      its user id in the split, so it lies in `1..=k` for `k` tokens. */
  lemma RankingIsLastOccurrence(s: string, u: UserId)
    requires u in FullRankingFrom(s).ranking
    ensures var r := FullRankingFrom(s).ranking[u].value;
      1 <= r <= |Split(s, Comma)| && LastOccurrence(Split(s, Comma), r - 1)
      && Split(s, Comma)[r - 1] == u.id
  {
    RankingKeys(s);
    var tokens := Split(s, Comma);
    assert u.id in tokens;
    var i := LastIndexOf(tokens, u.id);
    RankingOfLastOccurrence(s, i);
  }

  /** With `k` = the number of commas + 1: every rank is in `1..=k` and there
      are at most `k` entries. */
  lemma RankingBounds(s: string)
    ensures forall u :: u in FullRankingFrom(s).ranking ==>
      1 <= FullRankingFrom(s).ranking[u].value <= Count(s, Comma) + 1
    ensures |FullRankingFrom(s).ranking| <= Count(s, Comma) + 1
  {
    SplitLength(s, Comma);
    forall u | u in FullRankingFrom(s).ranking
      ensures 1 <= FullRankingFrom(s).ranking[u].value <= Count(s, Comma) + 1
    {
      RankingIsLastOccurrence(s, u);
    }
    CollectSize(Enumerated(RankingIds(s)));
  }

  /** When no id repeats, token `i` gets `Rank(i + 1)` and there is one entry
      per comma-separated token. */
  lemma RankingOfDistinct(s: string)
    requires forall i, j :: 0 <= i < j < |Split(s, Comma)| ==> Split(s, Comma)[i] != Split(s, Comma)[j]
    ensures forall i :: 0 <= i < |Split(s, Comma)| ==>
      UserId(Split(s, Comma)[i]) in FullRankingFrom(s).ranking
      && FullRankingFrom(s).ranking[UserId(Split(s, Comma)[i])] == Rank(i + 1)
    ensures |FullRankingFrom(s).ranking| == Count(s, Comma) + 1
  {
    var tokens := Split(s, Comma);
    forall i | 0 <= i < |tokens|
      ensures UserId(tokens[i]) in FullRankingFrom(s).ranking
      ensures FullRankingFrom(s).ranking[UserId(tokens[i])] == Rank(i + 1)
    {
      RankingOfLastOccurrence(s, i);
    }
    SplitLength(s, Comma);
    var pairs := Enumerated(RankingIds(s));
    assert forall i, j :: 0 <= i < j < |pairs| ==> pairs[i].0 != pairs[j].0;
    CollectSize(pairs);
  }

  /** The wire form Lila produces, the ids joined with commas, decodes back to
      each id's position. */
  lemma RankingOfJoinedIds(ids: seq<string>)
    requires |ids| >= 1
    requires forall i :: 0 <= i < |ids| ==> Comma !in ids[i]
    requires forall i, j :: 0 <= i < j < |ids| ==> ids[i] != ids[j]
    ensures FullRankingFrom(Join(ids, Comma)).ranking.Keys == set t | t in ids :: UserId(t)
    ensures forall i :: 0 <= i < |ids| ==>
      UserId(ids[i]) in FullRankingFrom(Join(ids, Comma)).ranking
      && FullRankingFrom(Join(ids, Comma)).ranking[UserId(ids[i])] == Rank(i + 1)
  {
    SplitJoin(ids, Comma);
    RankingKeys(Join(ids, Comma));
    RankingOfDistinct(Join(ids, Comma));
  }

  /** The empty string splits into one empty token, so it decodes to a single
      entry rather than to the empty map. */
  lemma RankingOfEmpty()
    ensures FullRankingFrom("").ranking == map[UserId("") := Rank(1)]
  {
    assert Split("", Comma) == [""];
    assert Enumerated(RankingIds("")) == [(UserId(""), Rank(1))];
  }

  /** `ClientData::new(full, user_id, player)`. Without a viewer the shared
      block is passed through and there is no `me`; with a viewer, evaluating
      the `withdraw` field reaches `todo!()` and panics. */
  function NewClientData(full: ArenaFull, userId: Option<UserId>, player: Option<Player>): (r: Outcome<ClientData>)
    ensures r.Done? <==> userId.None?
    ensures r.Done? ==> r.value.shared == full.shared && r.value.me.None?
    ensures r.Panicked? ==> r.message == "not yet implemented"
  {
    match userId
    case None => Done(ClientData(full.shared, None))
    case Some(uid) => Panicked("not yet implemented")
  }
}
