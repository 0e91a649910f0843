/** The pieces of Rust's standard library that the arena code relies on:
    `str::split` on a one-character separator, its inverse `join`, and how
    `collect()` builds a `HashMap` from a sequence of pairs. */
module RustStd {

  /** Number of occurrences of `c` in `s`. */
  function Count(s: string, c: char): nat
  {
    if |s| == 0 then 0 else (if s[0] == c then 1 else 0) + Count(s[1..], c)
  }

  /** `s.split(sep)`: the pieces between separators, in order. Like Rust it
      returns one (empty) piece for the empty string and an empty piece on
      each side of a leading, trailing or doubled separator. */
  function Split(s: string, sep: char): (parts: seq<string>)
    ensures |parts| >= 1
  {
    if |s| == 0 then [""]
    else
      var rest := Split(s[1..], sep);
      if s[0] == sep then [""] + rest
      else [[s[0]] + rest[0]] + rest[1..]
  }

  /** `parts.join(sep)`, the inverse of `Split`. */
  function Join(parts: seq<string>, sep: char): string
    requires |parts| >= 1
  {
    if |parts| == 1 then parts[0] else parts[0] + [sep] + Join(parts[1..], sep)
  }

  /** There is exactly one more piece than there are separators. */
  lemma {:induction false} SplitLength(s: string, sep: char)
    ensures |Split(s, sep)| == Count(s, sep) + 1
  {
    if |s| > 0 {
      SplitLength(s[1..], sep);
    }
  }

  /** No piece contains the separator. */
  lemma {:induction false} SplitPiecesFree(s: string, sep: char)
    ensures forall i :: 0 <= i < |Split(s, sep)| ==> sep !in Split(s, sep)[i]
  {
    if |s| > 0 {
      SplitPiecesFree(s[1..], sep);
      var rest := Split(s[1..], sep);
      if s[0] != sep {
        assert forall i :: 0 <= i < |rest| ==> sep !in rest[i];
        assert sep !in [s[0]] + rest[0];
      }
    }
  }

  /** Joining the pieces gives back the original string. */
  lemma {:induction false} JoinSplit(s: string, sep: char)
    ensures Join(Split(s, sep), sep) == s
  {
    if |s| > 0 {
      JoinSplit(s[1..], sep);
      var rest := Split(s[1..], sep);
      if s[0] == sep {
        assert ([""] + rest)[1..] == rest;
      } else {
        var parts := [[s[0]] + rest[0]] + rest[1..];
        if |rest| > 1 {
          assert parts[1..] == rest[1..];
          assert s == [s[0]] + s[1..];
        }
      }
    }
  }

  /** Splitting a piece free of separators followed by a separator peels off
      exactly that piece. */
  lemma {:induction false} SplitAfterPiece(a: string, r: string, sep: char)
    requires sep !in a
    ensures Split(a + [sep] + r, sep) == [a] + Split(r, sep)
  {
    if |a| == 0 {
      assert (a + [sep] + r)[1..] == r;
    } else {
      assert (a + [sep] + r)[1..] == a[1..] + [sep] + r;
      SplitAfterPiece(a[1..], r, sep);
      assert [a[0]] + a[1..] == a;
    }
  }

  /** A string without separators splits into itself. */
  lemma {:induction false} SplitNoSeparator(a: string, sep: char)
    requires sep !in a
    ensures Split(a, sep) == [a]
  {
    if |a| > 0 {
      SplitNoSeparator(a[1..], sep);
      assert [a[0]] + a[1..] == a;
    }
  }

  /** Splitting a join of separator-free pieces gives back the pieces. */
  lemma {:induction false} SplitJoin(parts: seq<string>, sep: char)
    requires |parts| >= 1
    requires forall i :: 0 <= i < |parts| ==> sep !in parts[i]
    ensures Split(Join(parts, sep), sep) == parts
  {
    if |parts| == 1 {
      SplitNoSeparator(parts[0], sep);
    } else {
      SplitJoin(parts[1..], sep);
      SplitAfterPiece(parts[0], Join(parts[1..], sep), sep);
      assert [parts[0]] + parts[1..] == parts;
    }
  }

  /** `pairs.into_iter().collect::<HashMap<_, _>>()`: the pairs are inserted
      in order, so a later pair overwrites an earlier one with the same key. */
  function Collect<K, V>(pairs: seq<(K, V)>): (m: map<K, V>)
    ensures forall i :: 0 <= i < |pairs| ==> pairs[i].0 in m
    ensures |m| <= |pairs|
  {
    if |pairs| == 0 then map[]
    else
      var last := pairs[|pairs| - 1];
      Collect(pairs[..|pairs| - 1])[last.0 := last.1]
  }

  /** The keys of the collected map are exactly the keys of the pairs. */
  lemma {:induction false} CollectKeys<K, V>(pairs: seq<(K, V)>, k: K)
    ensures k in Collect(pairs) <==> exists i :: 0 <= i < |pairs| && pairs[i].0 == k
  {
    if |pairs| > 0 {
      var init := pairs[..|pairs| - 1];
      CollectKeys(init, k);
      if exists i :: 0 <= i < |init| && init[i].0 == k {
        var i :| 0 <= i < |init| && init[i].0 == k;
        assert pairs[i].0 == k;
      }
      if exists i :: 0 <= i < |pairs| && pairs[i].0 == k {
        var i :| 0 <= i < |pairs| && pairs[i].0 == k;
        if i < |init| {
          assert init[i].0 == k;
        }
      }
    }
  }

  /** A key maps to the value of its last occurrence in the pairs. */
  lemma {:induction false} CollectLastWins<K, V>(pairs: seq<(K, V)>, i: nat)
    requires i < |pairs|
    requires forall j :: i < j < |pairs| ==> pairs[j].0 != pairs[i].0
    ensures pairs[i].0 in Collect(pairs) && Collect(pairs)[pairs[i].0] == pairs[i].1
  {
    if i < |pairs| - 1 {
      var init := pairs[..|pairs| - 1];
      assert init[i] == pairs[i];
      CollectLastWins(init, i);
    }
  }

  /** The collected map has at most as many entries as there were pairs, and
      exactly as many when the keys are distinct. */
  lemma {:induction false} CollectSize<K, V>(pairs: seq<(K, V)>)
    ensures |Collect(pairs)| <= |pairs|
    ensures (forall i, j :: 0 <= i < j < |pairs| ==> pairs[i].0 != pairs[j].0) ==> |Collect(pairs)| == |pairs|
  {
    if |pairs| > 0 {
      var init := pairs[..|pairs| - 1];
      var last := pairs[|pairs| - 1];
      CollectSize(init);
      if forall i, j :: 0 <= i < j < |pairs| ==> pairs[i].0 != pairs[j].0 {
        assert forall i, j :: 0 <= i < j < |init| ==> init[i].0 != init[j].0 by {
          forall i, j | 0 <= i < j < |init| ensures init[i].0 != init[j].0 {
            assert init[i] == pairs[i] && init[j] == pairs[j];
          }
        }
        CollectKeys(init, last.0);
        assert last.0 !in Collect(init);
      }
    }
  }
}
