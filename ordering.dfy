/** Ordering episodes by their number, as `all_episodes.sort(key=lambda x: x.no)` does:
    ascending by `no`, and stable, so episodes with the same number keep their order. */
module EpisodeOrder {
  import opened Records

  /** Ascending (not necessarily strictly) by episode number. */
  ghost predicate SortedByNo(s: seq<EpisodeInfo>)
  {
    forall i, j :: 0 <= i < j < |s| ==> s[i].no <= s[j].no
  }

  /** The episodes numbered `no`, in the order in which they occur. */
  function WithNo(s: seq<EpisodeInfo>, no: int): seq<EpisodeInfo>
  {
    if s == [] then []
    else if s[0].no == no then [s[0]] + WithNo(s[1..], no)
    else WithNo(s[1..], no)
  }

  /** A sort keyed on `no` is stable when, for every number, the episodes carrying it
      appear in the output in the same order as in the input. */
  ghost predicate StableByNo(input: seq<EpisodeInfo>, output: seq<EpisodeInfo>)
  {
    forall no :: WithNo(output, no) == WithNo(input, no)
  }

  /** Places `x` in front of the first episode whose number is at least its own. */
  function Insert(x: EpisodeInfo, s: seq<EpisodeInfo>): (r: seq<EpisodeInfo>)
    ensures |r| == |s| + 1
    ensures multiset(r) == multiset(s) + multiset{x}
  {
    if s == [] || x.no <= s[0].no then [x] + s
    else
      assert s == [s[0]] + s[1..];
      [s[0]] + Insert(x, s[1..])
  }

  /** A lower bound on `x` and on every episode of `s` bounds every episode of the result. */
  lemma {:induction false} InsertKeepsLowerBound(x: EpisodeInfo, s: seq<EpisodeInfo>, bound: int)
    requires bound <= x.no
    requires forall i :: 0 <= i < |s| ==> bound <= s[i].no
    ensures forall j :: 0 <= j < |Insert(x, s)| ==> bound <= Insert(x, s)[j].no
  {
    if s != [] && s[0].no < x.no {
      InsertKeepsLowerBound(x, s[1..], bound);
      assert Insert(x, s) == [s[0]] + Insert(x, s[1..]);
    }
  }

  lemma {:induction false} InsertKeepsSorted(x: EpisodeInfo, s: seq<EpisodeInfo>)
    requires SortedByNo(s)
    ensures SortedByNo(Insert(x, s))
  {
    if s != [] && s[0].no < x.no {
      var rest := Insert(x, s[1..]);
      InsertKeepsSorted(x, s[1..]);
      InsertKeepsLowerBound(x, s[1..], s[0].no);
      var r := Insert(x, s);
      assert r == [s[0]] + rest;
      forall i, j | 0 <= i < j < |r| ensures r[i].no <= r[j].no {
        assert r[j] == rest[j - 1];
        if i > 0 {
          assert r[i] == rest[i - 1];
        }
      }
    }
  }

  /** Insertion sort by episode number. */
  function SortByNo(s: seq<EpisodeInfo>): (r: seq<EpisodeInfo>)
    ensures |r| == |s|
    ensures multiset(r) == multiset(s)
    ensures SortedByNo(r)
  {
    if s == [] then []
    else
      assert s == [s[0]] + s[1..];
      InsertKeepsSorted(s[0], SortByNo(s[1..]));
      Insert(s[0], SortByNo(s[1..]))
  }

  lemma {:induction false} InsertKeepsOrderWithinNumbers(x: EpisodeInfo, s: seq<EpisodeInfo>, no: int)
    ensures WithNo(Insert(x, s), no) == WithNo([x] + s, no)
  {
    if s == [] || x.no <= s[0].no {
    } else {
      var t := s[1..];
      InsertKeepsOrderWithinNumbers(x, t, no);
      assert [s[0]] + Insert(x, t) == Insert(x, s);
      assert ([s[0]] + Insert(x, t))[1..] == Insert(x, t);
      assert ([x] + s)[1..] == s;
      assert ([x] + t)[1..] == t;
      assert ([s[0]] + ([x] + t))[1..] == [x] + t;
      assert s == [s[0]] + t;
    }
  }

  /** SortByNo is stable. */
  lemma {:induction false} SortByNoIsStable(s: seq<EpisodeInfo>)
    ensures StableByNo(s, SortByNo(s))
  {
    if s != [] {
      SortByNoIsStable(s[1..]);
      forall no ensures WithNo(SortByNo(s), no) == WithNo(s, no) {
        InsertKeepsOrderWithinNumbers(s[0], SortByNo(s[1..]), no);
        assert s == [s[0]] + s[1..];
        assert ([s[0]] + SortByNo(s[1..]))[1..] == SortByNo(s[1..]);
      }
    }
  }

  /** A sorted, stable result is unique: any sequence that is sorted by number and keeps,
      number by number, the input's order is SortByNo's output. So SortByNo is what any
      stable sort keyed on `no`, the library's own included, returns. */
  lemma {:induction false} StableSortIsUnique(s: seq<EpisodeInfo>, r: seq<EpisodeInfo>)
    requires SortedByNo(r) && StableByNo(s, r)
    ensures r == SortByNo(s)
  {
    SortByNoIsStable(s);
    SortedStableEqual(SortByNo(s), r);
  }

  /** Two sequences sorted by number that agree number by number are equal. */
  lemma {:induction false} SortedStableEqual(a: seq<EpisodeInfo>, b: seq<EpisodeInfo>)
    requires SortedByNo(a) && SortedByNo(b)
    requires forall no :: WithNo(a, no) == WithNo(b, no)
    ensures a == b
    decreases |a| + |b|
  {
    if a == [] || b == [] {
      if a != [] {
        FirstOfNumber(a);
      } else if b != [] {
        FirstOfNumber(b);
      }
    } else {
      FirstOfNumber(a);
      FirstOfNumber(b);
      var ka, kb := a[0].no, b[0].no;
      WithNoMembers(b, ka);
      WithNoMembers(a, kb);
      assert WithNo(b, ka)[0] in WithNo(b, ka);
      assert WithNo(a, kb)[0] in WithNo(a, kb);
      assert ka == kb;
      assert a[0] == b[0];
      forall no ensures WithNo(a[1..], no) == WithNo(b[1..], no) {
        assert WithNo(a, no) == WithNo(b, no);
        if a[0].no == no {
          assert WithNo(a[1..], no) == WithNo(a, no)[1..];
          assert WithNo(b[1..], no) == WithNo(b, no)[1..];
        }
      }
      SortedStableEqual(a[1..], b[1..]);
      assert a == [a[0]] + a[1..];
      assert b == [b[0]] + b[1..];
    }
  }

  /** The first episode heads the list of its own number. */
  lemma FirstOfNumber(s: seq<EpisodeInfo>)
    requires s != []
    ensures WithNo(s, s[0].no) == [s[0]] + WithNo(s[1..], s[0].no)
  {
  }

  /** Every episode of WithNo(s, no) carries `no` and comes from `s`. */
  lemma {:induction false} WithNoMembers(s: seq<EpisodeInfo>, no: int)
    ensures forall e :: e in WithNo(s, no) ==> e.no == no && e in s
  {
    if s != [] {
      WithNoMembers(s[1..], no);
      assert s == [s[0]] + s[1..];
    }
  }
}
