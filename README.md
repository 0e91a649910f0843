# lila-http arena snapshot: ranking decoder and viewer projections

This project models the pure core of lila-http's arena view. lila-http is the
service that serves personalised snapshots of running Lichess arena
tournaments. The model covers:

- `FullRanking::from(String)` (src/arena.rs). A tournament's ranking arrives as
  one string of user ids separated by commas. The decoder splits it and maps
  each id to its 1-based position, its `Rank`. The map is built by
  `collect()` into a `HashMap`, so when an id repeats, its last position wins.
- `ClientData::new` (src/arena.rs). With no viewer, it passes the tournament's
  shared block through and has no `me` block. With a viewer, evaluating the
  `withdraw` field reaches `todo!()`, so the call panics. The model returns
  `Outcome.Panicked("not yet implemented")` (the message `todo!()` prints).
- `ClientDataRef::new` (benches/copy_vs_ref.rs), the by-reference projection:
  - The shared block is the snapshot's own value.
  - The `me` block is present exactly when a viewer is given. It holds the
    viewer's ranking lookup and ongoing-game lookup, `withdraw = false` and no
    pause delay.
  - The standing block always reports page 1.
  - Its players are the fixed slice `(page-1)*10 .. page*10-1` of the standing
    list, which is 9 players.
  - The slice bounds are not checked. Every case the source would panic on is
    excluded by the precondition `WindowInBounds`.
- `generate_arena` (benches/copy_vs_ref.rs), the benchmark fixture. It is a
  loop that pushes 1499 copies of the array `[1, …, 999]` onto the standing
  list. The snapshot's ranking and ongoing games are empty.

The two files disagree on `ArenaFull`. The benchmark builds it with `id` and
reads and builds `standing`, fields which src/arena.rs does not declare. `Arena.ArenaFull` holds the
union of the fields. src/arena.rs, src/main.rs:76 and the benchmark call
`ClientData::new` with three different argument orders. The model follows the
signature declared in src/arena.rs:97.

These files choose no default page from the viewer's rank, truncate no team
standing, have no "my team" entry and no withdrawal or pause maps. The
benchmark's page slice panics when it is out of bounds, and every page reports
page 1.

Modules: `Wrappers` has `Option`, `Outcome` and map lookup. `RustStd` has
`str::split` and its inverse `join` for a single separator, and how `collect()`
builds a `HashMap`. `Arena` models src/arena.rs. `CopyVsRef` models
benches/copy_vs_ref.rs.

## Model

| member | source | states |
|---|---|---|
| Wrappers.Get | src/arena.rs:101 | a `HashMap::get(..).cloned()` lookup is `Some` exactly when the key is present, and then it holds the stored value |
| RustStd.Split | src/arena.rs:65-66 | `str::split(",")`: the pieces between commas in order, at least one piece, with an empty piece for the empty string and on each side of a leading, trailing or doubled comma |
| RustStd.SplitLength | src/arena.rs:65-69 | splitting on commas yields exactly one more token than there are commas, so even the empty string yields one token |
| RustStd.SplitPiecesFree | src/arena.rs:65-69 | no token produced by the split contains a comma |
| RustStd.JoinSplit | src/arena.rs:65-69 | joining the split tokens with commas gives back the original string |
| RustStd.SplitJoin | src/arena.rs:65-69 | splitting comma-free ids joined with commas gives back exactly those ids |
| RustStd.Collect | src/arena.rs:71-75 | `collect()` into a `HashMap` inserts the pairs in order; every pair's key is present and there are at most as many entries as pairs |
| RustStd.CollectKeys | src/arena.rs:70-76 | a key is in the collected HashMap exactly when some pair has that key |
| RustStd.CollectLastWins | src/arena.rs:70-76 | a key's value in the collected HashMap is the value of its last pair |
| RustStd.CollectSize | src/arena.rs:70-76 | the collected HashMap has at most one entry per pair, and exactly one per pair when the keys are distinct |
| Arena.RankingIds | src/arena.rs:65-69 | one `UserId` per comma-split token, in order, with the token as its string; at least one |
| Arena.Enumerated | src/arena.rs:72-74 | `enumerate().map(..)`: pair `i` is the id at position `i` with `Rank(i + 1)` |
| Arena.FullRankingFrom | src/arena.rs:63-78 | `FullRanking::from`: every token's id is a key; there are between 1 and `k` entries for `k` tokens, so even the empty string gives one; the last token always has `Rank(k)` |
| Arena.RankingKeys | src/arena.rs:63-78 | the ranking's key set is exactly the set of user ids produced by the comma split, with no other keys |
| Arena.RankingOfLastOccurrence | src/arena.rs:70-76 | a token that does not occur again later is mapped to `Rank(i + 1)`, where `i` is its 0-based position |
| Arena.RankingIsLastOccurrence | src/arena.rs:63-78 | every rank `r` in the map lies in `1..=k` for `k` tokens, token `r - 1` is the key's id, and that id does not occur after it: a repeated id keeps its last rank |
| Arena.RankingBounds | src/arena.rs:65-75 | every rank lies in `1..=k` with `k` = number of commas + 1, and the map has at most `k` entries |
| Arena.RankingOfDistinct | src/arena.rs:70-75 | when no id repeats, the token at position `i` is mapped to `Rank(i + 1)` and the map has exactly `k` entries |
| Arena.RankingOfJoinedIds | src/arena.rs:63-78 | distinct comma-free ids joined with commas decode to a ranking whose keys are those ids, each mapped to its own 1-based position |
| Arena.RankingOfEmpty | src/arena.rs:65-67 | the empty string decodes to `{UserId("") ↦ Rank(1)}`, not to the empty map |
| Arena.NewClientData | src/arena.rs:97-107 | the call completes exactly when there is no viewer, and then `shared` is the snapshot's shared block and `me` is absent; with a viewer it panics in `todo!()` |
| CopyVsRef.MeBlock | benches/copy_vs_ref.rs:35-40 | the viewer's block: `withdraw` false and no pause delay; `rank` present iff the viewer is in the ranking and then their rank; `game_id` present iff they have an ongoing game and then that game |
| CopyVsRef.WindowInBounds | benches/copy_vs_ref.rs:43 | the slice is in bounds iff the page is at least 1 (page 0 underflows on `page - 1`) and the nine entries from index `(page-1)*10` all exist |
| CopyVsRef.NewClientDataRef | benches/copy_vs_ref.rs:28-46 | `shared` is the snapshot's; `me` is present iff a viewer is given; `me.rank` and `me.game_id` are the viewer's lookups in the ranking and ongoing-games maps, each absent when the key is; `withdraw` is false and `pause_delay` is absent; the reported page is 1; the players are exactly the 9 entries `standing[(page-1)*10 + k]` for `k` in `0..9`; the precondition is the slice's bounds |
| CopyVsRef.ViewerRankFromWire | benches/copy_vs_ref.rs:35-36 | for a snapshot whose ranking was decoded from a wire string, the viewer has a rank iff their id is one of its tokens, and the rank is one more than the 0-based position of the id's last occurrence |
| CopyVsRef.TenthPlayerNeverShown | benches/copy_vs_ref.rs:43 | with distinct standing entries, the entry at a 0-based index ending in 9 is on no page's list |
| CopyVsRef.StandingPage | benches/copy_vs_ref.rs:41-44 | the corrected window: at most 10 players in standing order from index `(page-1)*10`; exactly 10 when the standing reaches `page*10`, and otherwise, on a short last page, all `|standing| - (page-1)*10` remaining players; empty exactly when the page is 0 or starts past the end |
| CopyVsRef.StandingPagesCoverAll | benches/copy_vs_ref.rs:43 | under the corrected window, every standing entry `i` is shown as entry `i % 10` of page `i / 10 + 1` |
| CopyVsRef.Rando | benches/copy_vs_ref.rs:78 | the fixture's array of 999 JSON numbers, entry `i` being `i + 1` |
| CopyVsRef.GenerateArena | benches/copy_vs_ref.rs:57-89 | the fixture has the given id, the fixed shared block, empty ranking and ongoing-games maps, and exactly 1499 standing entries, each the 999-element array of the numbers 1 to 999 |

## Left out

- src/repo.rs (the time-to-live cache and the HTTP fetch), src/redis.rs (the pub/sub loop), src/mongo.rs (the database query), src/main.rs (routing and startup), src/http.rs, src/error.rs, src/opt.rs and src/lila.rs are network, database, HTTP or CLI plumbing. They are not part of this model. Only the `Player` record of src/mongo.rs is declared, because `ClientData::new` takes one, although it does not use it.
- `UserName::to_id`, called at src/main.rs:73, is not defined in the files shown, so it is not part of this model.
- `no_ref`, `with_ref` and `criterion_benchmark` in the benchmark do JSON serialisation, file reading and timing. Serialisation shape (serde attributes, flattening, omitted fields) is library behaviour and is not modelled.
- `ArenaShared` and `JsValue` are plain values. Their contents are never interpreted.
- `Arc` sharing and the borrowed `&ArenaShared` / `&[JsValue]` of `ClientDataRef` are modelled as the snapshot's own values. The model says that the values are equal, not that no copy is made.
- Arena.NewClientData: Rust evaluates the struct fields in the order written. Only the `rank` lookup (src/arena.rs:101) runs before `withdraw: todo!()` (:102) panics, and `game_id` (:103) is never evaluated. The lookup has no observable effect, so it is not modelled.
- CopyVsRef.NewClientDataRef: the precondition assumes overflow checks, under which page 0 panics on `page - 1`. With them off (the default benchmark profile), a page near 2^63 wraps around to a small in-bounds window. A `Vec` holds at most `isize::MAX` entries, so under the bounds precondition `page * 10` cannot overflow.
- `Rank` holds an unbounded natural number. In Rust, `index + 1` cannot overflow `usize` because a `Vec` never reaches `usize::MAX` entries.

## Findings

| source | as written | input that shows it | evidently intended | confidence | as-written member | corrected member |
|---|---|---|---|---|---|---|
| benches/copy_vs_ref.rs:43 | the page window's exclusive end is `page*10 - 1`, so each page holds only 9 players | any standing of 10 or more distinct entries: the entry at index 9 is on neither page 1 (indices 0–8) nor page 2 (indices 10–18) | windows of 10 players, `(page-1)*10 .. page*10`, short at the end and empty past it | not executed; high | CopyVsRef.TenthPlayerNeverShown | CopyVsRef.StandingPage |
