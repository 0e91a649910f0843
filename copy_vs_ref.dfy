/** The by-reference projection of benches/copy_vs_ref.rs: `ClientDataRef::new`
    with its fixed page window, and the fixture builder `generate_arena`. */
module CopyVsRef {
  import opened Wrappers
  import opened Arena

  datatype ClientStandingRef = ClientStandingRef(page: u32, players: seq<JsValue>)

  /** `shared` and `players` are borrowed from the snapshot in the source;
      here they are the snapshot's own values. */
  datatype ClientDataRef = ClientDataRef(
    shared: ArenaShared,
    me: Option<ClientMe>,
    standing: ClientStandingRef)

  /** The benchmark's `me` block: rank and ongoing game are looked up, the
      withdrawal flag and pause delay are fixed placeholders. */
  function MeBlock(full: ArenaFull, uid: UserId): (me: ClientMe)
    ensures !me.withdraw && me.pauseDelay.None?
    ensures me.rank.Some? <==> uid in full.ranking.ranking
    ensures me.rank.Some? ==> me.rank.value == full.ranking.ranking[uid]
    ensures me.gameId.Some? <==> uid in full.ongoingUserGames
    ensures me.gameId.Some? ==> me.gameId.value == full.ongoingUserGames[uid]
  {
    ClientMe(Get(full.ranking.ranking, uid), false, Get(full.ongoingUserGames, uid), None)
  }

  /** The slice `standing[(page - 1) * 10 .. page * 10 - 1]` is in bounds
      (`page - 1` underflows for page 0): the nine indices from
      `(page - 1) * 10` on all exist. */
  predicate WindowInBounds(page: usize, standing: seq<JsValue>): (ok: bool)
    ensures page == 0 ==> !ok
    ensures ok <==> page >= 1 && (page as int - 1) * 10 + 9 <= |standing|
  {
    1 <= page && page as int * 10 - 1 <= |standing|
  }

  /** `ClientDataRef::new(page, full, user_id)`. */
  function NewClientDataRef(page: usize, full: ArenaFull, userId: Option<UserId>): (r: ClientDataRef)
    requires WindowInBounds(page, full.standing)
    ensures r.shared == full.shared
    ensures r.me.Some? <==> userId.Some?
    ensures r.me.Some? ==> !r.me.value.withdraw && r.me.value.pauseDelay.None?
    ensures r.me.Some? ==>
      (r.me.value.rank.Some? <==> userId.value in full.ranking.ranking)
      && (r.me.value.rank.Some? ==> r.me.value.rank.value == full.ranking.ranking[userId.value])
    ensures r.me.Some? ==>
      (r.me.value.gameId.Some? <==> userId.value in full.ongoingUserGames)
      && (r.me.value.gameId.Some? ==> r.me.value.gameId.value == full.ongoingUserGames[userId.value])
    ensures r.standing.page == 1
    ensures |r.standing.players| == 9
    ensures forall k :: 0 <= k < 9 ==> r.standing.players[k] == full.standing[(page as int - 1) * 10 + k]
  {
    ClientDataRef(
      full.shared,
      match userId
      case None => None
      case Some(uid) => Some(MeBlock(full, uid)),
      ClientStandingRef(1, full.standing[(page as int - 1) * 10 .. page as int * 10 - 1]))
  }

  /** For a snapshot whose ranking came from the comma-separated wire string
      `s`, the viewer is ranked exactly when their id is one of the tokens, and
      the rank is one more than the id's last position. */
  lemma ViewerRankFromWire(s: string, page: usize, full: ArenaFull, uid: UserId)
    requires full.ranking == FullRankingFrom(s)
    requires WindowInBounds(page, full.standing)
    ensures var me := NewClientDataRef(page, full, Some(uid)).me.value;
      (me.rank.Some? <==> uid.id in RustStd.Split(s, Comma))
      && (me.rank.Some? ==>
            1 <= me.rank.value.value <= |RustStd.Split(s, Comma)|
            && LastOccurrence(RustStd.Split(s, Comma), me.rank.value.value - 1)
            && RustStd.Split(s, Comma)[me.rank.value.value - 1] == uid.id)
  {
    RankingKeys(s);
    if uid in full.ranking.ranking {
      RankingIsLastOccurrence(s, uid);
    }
  }

  /** As written, the window is one short: a player at a 0-based index ending
      in 9 (the tenth of each block of ten) is shown on no page. */
  lemma TenthPlayerNeverShown(page: usize, full: ArenaFull, userId: Option<UserId>, i: int)
    requires WindowInBounds(page, full.standing)
    requires 0 <= i < |full.standing| && i % 10 == 9
    requires forall a, b :: 0 <= a < b < |full.standing| ==> full.standing[a] != full.standing[b]
    ensures full.standing[i] !in NewClientDataRef(page, full, userId).standing.players
  {
    var players := NewClientDataRef(page, full, userId).standing.players;
    forall k | 0 <= k < 9
      ensures players[k] != full.standing[i]
    {
      var j := (page as int - 1) * 10 + k;
      assert j % 10 == k;
      assert j != i;
    }
  }

  /** The page window evidently intended: ten players per page, a short last
      page, and an empty list for a page beyond the standing. */
  function StandingPage(standing: seq<JsValue>, page: usize): (players: seq<JsValue>)
    ensures |players| <= 10
    ensures players == [] <==> page == 0 || (page as int - 1) * 10 >= |standing|
    ensures 1 <= page && page as int * 10 <= |standing| ==> |players| == 10
    ensures 1 <= page && (page as int - 1) * 10 < |standing| ==>
      |players| == (if page as int * 10 <= |standing| then 10 else |standing| - (page as int - 1) * 10)
    ensures forall k :: 0 <= k < |players| ==>
      (page as int - 1) * 10 + k < |standing| && players[k] == standing[(page as int - 1) * 10 + k]
  {
    if page == 0 then []
    else
      var start := (page as int - 1) * 10;
      if start >= |standing| then []
      else standing[start .. if start + 10 <= |standing| then start + 10 else |standing|]
  }

  /** The intended pages cover the whole standing: player `i` is at position
      `i % 10` of page `i / 10 + 1`. */
  lemma StandingPagesCoverAll(standing: seq<JsValue>, i: int)
    requires 0 <= i < |standing| < 0x8000_0000_0000_0000
    ensures var players := StandingPage(standing, (i / 10 + 1) as usize);
      i % 10 < |players| && players[i % 10] == standing[i]
  {
    var page := (i / 10 + 1) as usize;
    assert (page as int - 1) * 10 + i % 10 == i;
    var players := StandingPage(standing, page);
    assert (page as int - 1) * 10 < |standing|;
    assert |players| == (if (page as int - 1) * 10 + 10 <= |standing| then 10 else |standing| - (page as int - 1) * 10);
  }

  /** `(1..1000i64).map(|i| json!(i)).collect()`. */
  function Rando(): (r: seq<JsValue>)
    ensures |r| == 999
    ensures forall i :: 0 <= i < 999 ==> r[i] == JsNumber(i + 1)
  {
    seq(999, i requires 0 <= i < 999 => JsNumber(i + 1))
  }

  /** `generate_arena(id)`: a fixture with a fixed shared block, no ranking,
      no ongoing games and 1499 identical standing entries, each the array of
      the numbers 1 to 999. */
  method GenerateArena(id: ArenaId) returns (full: ArenaFull)
    ensures full.id == id
    ensures full.shared == ArenaShared(15000, JsNull, Some(200000), Some(200000), Some(true),
      Some(false), Some(false), Some(JsNull), Some(JsNull), Some(false), Some(JsNull),
      Some(JsNull), Some(JsNull))
    ensures full.ongoingUserGames == map[] && full.ranking.ranking == map[]
    ensures |full.standing| == 1499
    ensures forall k :: 0 <= k < |full.standing| ==>
      full.standing[k].JsArray? && |full.standing[k].items| == 999
      && full.standing[k] == JsArray(Rando())
  {
    var shared := ArenaShared(15000, JsNull, Some(200000), Some(200000), Some(true),
      Some(false), Some(false), Some(JsNull), Some(JsNull), Some(false), Some(JsNull),
      Some(JsNull), Some(JsNull));
    var ongoingUserGames := map[];
    var ranking := FullRanking(map[]);
    var standing: seq<JsValue> := [];
    var rando := Rando();
    for i := 1 to 1500
      invariant |standing| == i - 1
      invariant forall k :: 0 <= k < |standing| ==> standing[k] == JsArray(rando)
    {
      standing := standing + [JsArray(rando)];
    }
    full := ArenaFull(id, shared, ongoingUserGames, ranking, standing);
  }
}
