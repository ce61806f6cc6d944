/** Keeping the first row of every key, up to a cap. A row without a key is always kept. */
module FirstWins {
  import opened Sequences

  predicate KeyIn<T, K(==)>(rows: seq<T>, key: T -> Option<K>, k: K) {
    exists i :: 0 <= i < |rows| && key(rows[i]) == Some(k)
  }

  predicate Taken<T, K(==)>(rows: seq<T>, key: T -> Option<K>, row: T) {
    key(row).Some? && KeyIn(rows, key, key(row).value)
  }

  function Distinct<T, K(==)>(rows: seq<T>, key: T -> Option<K>): seq<T> {
    if rows == [] then []
    else
      var kept := Distinct(rows[..|rows| - 1], key);
      var last := rows[|rows| - 1];
      if Taken(kept, key, last) then kept else kept + [last]
  }

  /** A loop that appends before it compares with the cap shows at least one row. */
  function Limit(cap: int): nat {
    if cap < 1 then 1 else cap
  }

  function Kept<T, K(==)>(rows: seq<T>, key: T -> Option<K>, cap: int): seq<T> {
    var all := Distinct(rows, key);
    if |all| <= Limit(cap) then all else all[..Limit(cap)]
  }

  lemma DistinctNext<T, K>(rows: seq<T>, key: T -> Option<K>, i: nat)
    requires i < |rows|
    ensures var kept := Distinct(rows[..i], key);
      Distinct(rows[..i + 1], key) == if Taken(kept, key, rows[i]) then kept else kept + [rows[i]]
  {
    assert rows[..i + 1][..i] == rows[..i];
  }

  lemma {:induction false} DistinctPrefix<T, K>(rows: seq<T>, key: T -> Option<K>, i: nat)
    requires i <= |rows|
    ensures Distinct(rows[..i], key) <= Distinct(rows, key)
    decreases |rows|
  {
    if i == |rows| {
      assert rows[..i] == rows;
    } else {
      var front := rows[..|rows| - 1];
      DistinctPrefix(front, key, i);
      assert front[..i] == rows[..i];
    }
  }

  function Map<T, L>(rows: seq<T>, line: T -> L): seq<L> {
    seq(|rows|, i requires 0 <= i < |rows| => line(rows[i]))
  }

  lemma KeyInNext<T, K>(rows: seq<T>, key: T -> Option<K>, r: T)
    ensures forall k :: KeyIn(rows + [r], key, k) <==> KeyIn(rows, key, k) || key(r) == Some(k)
  {
    forall k
      ensures KeyIn(rows + [r], key, k) <==> KeyIn(rows, key, k) || key(r) == Some(k)
    {
      if KeyIn(rows, key, k) {
        var i :| 0 <= i < |rows| && key(rows[i]) == Some(k);
        assert (rows + [r])[i] == rows[i];
      }
      assert (rows + [r])[|rows|] == r;
    }
  }

  lemma MapNext<T, L>(rows: seq<T>, line: T -> L, r: T)
    ensures Map(rows + [r], line) == Map(rows, line) + [line(r)]
  {
  }

  lemma KeptAtCap<T, K>(rows: seq<T>, key: T -> Option<K>, cap: int, i: nat)
    requires i <= |rows| && |Distinct(rows[..i], key)| == Limit(cap)
    ensures Kept(rows, key, cap) == Distinct(rows[..i], key)
  {
    DistinctPrefix(rows, key, i);
  }

  /** The loop: the keys seen so far, a line for every row that is kept, and a stop once the cap is reached. */
  method KeepFirst<T, K(==), L>(rows: seq<T>, key: T -> Option<K>, line: T -> L, cap: int) returns (out: seq<L>)
    ensures out == Map(Kept(rows, key, cap), line)
  {
    var seen: set<K> := {};
    ghost var kept: seq<T> := [];
    out := [];
    for i := 0 to |rows|
      invariant kept == Distinct(rows[..i], key) && out == Map(kept, line)
      invariant forall k :: k in seen <==> KeyIn(kept, key, k)
      invariant |kept| < Limit(cap)
    {
      var r := rows[i];
      DistinctNext(rows, key, i);
      KeyInNext(kept, key, r);
      MapNext(kept, line, r);
      match key(r) {
        case Some(k) =>
          if k in seen {
            continue;
          }
          seen := seen + {k};
        case None =>
      }
      out := out + [line(r)];
      kept := kept + [r];
      if |out| >= cap {
        KeptAtCap(rows, key, cap, i + 1);
        return;
      }
    }
    assert rows[..|rows|] == rows;
  }

  ghost predicate UniqueKeys<T, K>(rows: seq<T>, key: T -> Option<K>) {
    forall i, j :: 0 <= i < j < |rows| && key(rows[i]).Some? ==> key(rows[i]) != key(rows[j])
  }

  lemma {:induction false} DistinctFacts<T, K>(rows: seq<T>, key: T -> Option<K>)
    ensures Subsequence(Distinct(rows, key), rows)
    ensures UniqueKeys(Distinct(rows, key), key)
  {
    if rows != [] {
      var front, last := rows[..|rows| - 1], rows[|rows| - 1];
      DistinctFacts(front, key);
      assert rows == front + [last];
      SubsequenceSkip(Distinct(front, key), front, last);
      SubsequenceTake(Distinct(front, key), front, last);
    }
  }

  /** Why a row is not shown: an earlier shown row has its key, or the table was full before it. */
  ghost predicate Displaced<T(!new), K>(rows: seq<T>, key: T -> Option<K>, cap: int, i: nat)
    requires i < |rows|
  {
    var out := Kept(rows, key, cap);
    || (key(rows[i]).Some? && exists j :: 0 <= j < i && key(rows[j]) == key(rows[i]) && rows[j] in out)
    || (|out| == Limit(cap) && Subsequence(out, rows[..i]))
  }

  /** The rows shown are distinct in key and in order, within the limit, and every other row is displaced. */
  lemma KeptFacts<T(!new), K>(rows: seq<T>, key: T -> Option<K>, cap: int)
    ensures Subsequence(Kept(rows, key, cap), rows)
    ensures UniqueKeys(Kept(rows, key, cap), key)
    ensures forall i :: 0 <= i < |rows| ==> rows[i] in Kept(rows, key, cap) || Displaced(rows, key, cap, i)
  {
    var all, out := Distinct(rows, key), Kept(rows, key, cap);
    DistinctFacts(rows, key);
    SubsequencePrefix(out, all);
    SubsequenceTransitive(out, all, rows);
    forall i | 0 <= i < |rows|
      ensures rows[i] in out || Displaced(rows, key, cap, i)
    {
      RowIsAccountedFor(rows, key, cap, i);
    }
  }

  lemma RowIsAccountedFor<T(!new), K>(rows: seq<T>, key: T -> Option<K>, cap: int, i: nat)
    requires i < |rows|
    ensures rows[i] in Kept(rows, key, cap) || Displaced(rows, key, cap, i)
  {
    var all, out := Distinct(rows, key), Kept(rows, key, cap);
    var before, upTo := Distinct(rows[..i], key), Distinct(rows[..i + 1], key);
    DistinctNext(rows, key, i);
    DistinctPrefix(rows, key, i);
    DistinctPrefix(rows, key, i + 1);
    DistinctFacts(rows[..i], key);
    if |out| <= |before| && |out| < |all| {
      assert out <= before;
      SubsequencePrefix(out, before);
      SubsequenceTransitive(out, before, rows[..i]);
    } else if Taken(before, key, rows[i]) {
      assert before <= out;
      SubsequenceElements(before, rows[..i]);
      var m :| 0 <= m < |before| && key(before[m]) == key(rows[i]);
      assert before[m] in before && before[m] in rows[..i] && out[m] == before[m];
      var j :| 0 <= j < i && rows[j] == before[m];
    } else {
      assert upTo == before + [rows[i]];
      assert out[|before|] == all[|before|] == upTo[|before|] == rows[i];
    }
  }

  /** Rows without a key are all kept. */
  lemma {:induction false} KeylessAreKept<T, K>(rows: seq<T>, key: T -> Option<K>)
    requires forall i :: 0 <= i < |rows| ==> key(rows[i]).None?
    ensures Distinct(rows, key) == rows
  {
    if rows != [] {
      KeylessAreKept(rows[..|rows| - 1], key);
    }
  }

  /** The cap is respected exactly when it is positive, or when there is nothing to show. */
  lemma CapIsKeptIff<T, K>(rows: seq<T>, key: T -> Option<K>, cap: int)
    ensures |Kept(rows, key, cap)| <= cap <==> cap >= 1 || (cap == 0 && rows == [])
  {
  }
}
