/**
 * The order in which a board's comments are shown: the in-place
 * `sort(Comparator.comparing(Comment::getModifiedAt).reversed())` of
 * BoardService, and the selection of top-level comments that follows it.
 *
 * java.util.List.sort is a stable sort, so it is specified here by a stable
 * insertion sort, SortNewestFirst, with its properties proved as lemmas.
 */
module CommentOrder {
  import opened Common

  /** A Comment entity, with the fields the core reads. */
  datatype Comment = Comment(id: int, contents: string, modifiedAt: int, parentCommentId: Option<int>)

  /** Non-increasing in modifiedAt: newest first. */
  ghost predicate NewestFirst(s: seq<Comment>) {
    forall i, j :: 0 <= i < j < |s| ==> s[i].modifiedAt >= s[j].modifiedAt
  }

  /** A comment is top-level when it answers no other comment (parentCommentId == null). */
  predicate IsTopLevel(c: Comment) {
    c.parentCommentId == None
  }

  /** The elements of `s` that satisfy `p`, in the order they have in `s`. */
  function Filter(p: Comment -> bool, s: seq<Comment>): (r: seq<Comment>)
    ensures |r| <= |s|
  {
    if s == [] then [] else (if p(s[0]) then [s[0]] else []) + Filter(p, s[1..])
  }

  /** The selection holds exactly the elements of `s` that satisfy `p`. */
  lemma {:induction false} FilterMembers(p: Comment -> bool, s: seq<Comment>)
    ensures forall x :: x in Filter(p, s) <==> x in s && p(x)
  {
    if s != [] {
      FilterMembers(p, s[1..]);
      assert s == [s[0]] + s[1..];
    }
  }

  /** Inserts `c` into a newest-first sequence ahead of every comment that is not newer than `c`. */
  function InsertNewestFirst(c: Comment, s: seq<Comment>): (inserted: seq<Comment>)
  {
    if s == [] || c.modifiedAt >= s[0].modifiedAt then [c] + s
    else [s[0]] + InsertNewestFirst(c, s[1..])
  }

  /**
   * Insertion adds exactly `c` and keeps a sequence newest first; what comes
   * first afterwards is `c` or what came first before.
   */
  lemma {:induction false} InsertKeepsNewestFirst(c: Comment, s: seq<Comment>)
    requires NewestFirst(s)
    ensures multiset(InsertNewestFirst(c, s)) == multiset(s) + multiset{c}
    ensures NewestFirst(InsertNewestFirst(c, s))
    ensures InsertNewestFirst(c, s)[0] == c || InsertNewestFirst(c, s)[0] == s[0]
  {
    if s != [] && c.modifiedAt < s[0].modifiedAt {
      InsertKeepsNewestFirst(c, s[1..]);
      assert s == [s[0]] + s[1..];
    }
  }

  /** The comments of `s` newest first; comments with equal modifiedAt keep their relative order. */
  function SortNewestFirst(s: seq<Comment>): (r: seq<Comment>)
    ensures multiset(r) == multiset(s)
    ensures NewestFirst(r)
  {
    if s == [] then []
    else
      assert s == [s[0]] + s[1..];
      var rest := SortNewestFirst(s[1..]);
      InsertKeepsNewestFirst(s[0], rest);
      InsertNewestFirst(s[0], rest)
  }

  /** The selection of the comments satisfying `p` keeps a newest-first sequence newest first. */
  lemma {:induction false} FilterKeepsNewestFirst(p: Comment -> bool, s: seq<Comment>)
    requires NewestFirst(s)
    ensures NewestFirst(Filter(p, s))
  {
    if s != [] {
      FilterKeepsNewestFirst(p, s[1..]);
      FilterMembers(p, s[1..]);
      var rest := Filter(p, s[1..]);
      forall j | 0 <= j < |rest| ensures s[0].modifiedAt >= rest[j].modifiedAt {
        assert rest[j] in s[1..];
      }
    }
  }

  /** Selecting after an insertion is inserting into the selection (or nothing, when `c` is not selected). */
  lemma {:induction false} FilterInsert(p: Comment -> bool, c: Comment, s: seq<Comment>)
    requires NewestFirst(s)
    ensures NewestFirst(Filter(p, s))
    ensures Filter(p, InsertNewestFirst(c, s))
         == if p(c) then InsertNewestFirst(c, Filter(p, s)) else Filter(p, s)
  {
    FilterKeepsNewestFirst(p, s);
    if s == [] || c.modifiedAt >= s[0].modifiedAt {
      FilterInsertAtFront(p, c, s);
    } else {
      FilterKeepsNewestFirst(p, s[1..]);
      FilterInsert(p, c, s[1..]);
      FilterInsertBehind(p, c, s);
    }
  }

  /** The case of FilterInsert where `c` goes in front. */
  lemma {:induction false} FilterInsertAtFront(p: Comment -> bool, c: Comment, s: seq<Comment>)
    requires NewestFirst(s) && NewestFirst(Filter(p, s))
    requires s == [] || c.modifiedAt >= s[0].modifiedAt
    ensures Filter(p, InsertNewestFirst(c, s))
         == if p(c) then InsertNewestFirst(c, Filter(p, s)) else Filter(p, s)
  {
    var f := Filter(p, s);
    var r := [c] + s;
    assert r[0] == c && r[1..] == s;
    assert Filter(p, r) == (if p(c) then [c] else []) + f;
    if p(c) && f != [] {
      FilterMembers(p, s);
      assert f[0] in s;
    }
  }

  /** The case of FilterInsert where `c` goes behind the first comment, given the result for the rest. */
  lemma {:induction false} FilterInsertBehind(p: Comment -> bool, c: Comment, s: seq<Comment>)
    requires s != [] && c.modifiedAt < s[0].modifiedAt
    requires Filter(p, InsertNewestFirst(c, s[1..]))
          == if p(c) then InsertNewestFirst(c, Filter(p, s[1..])) else Filter(p, s[1..])
    ensures Filter(p, InsertNewestFirst(c, s))
         == if p(c) then InsertNewestFirst(c, Filter(p, s)) else Filter(p, s)
  {
    var s0 := s[0];
    var rest := InsertNewestFirst(c, s[1..]);
    var f1 := Filter(p, s[1..]);
    var h := if p(s0) then [s0] else [];
    assert InsertNewestFirst(c, s) == [s0] + rest;
    FilterCons(p, s0, rest);
    assert Filter(p, InsertNewestFirst(c, s)) == h + Filter(p, rest);
    assert s == [s0] + s[1..];
    FilterCons(p, s0, s[1..]);
    assert Filter(p, s) == h + f1;
    if p(c) {
      if p(s0) {
        var f := [s0] + f1;
        assert f[0] == s0 && f[1..] == f1;
        assert InsertNewestFirst(c, f) == [s0] + InsertNewestFirst(c, f1);
      } else {
        assert h + f1 == f1;
        assert h + InsertNewestFirst(c, f1) == InsertNewestFirst(c, f1);
      }
    }
  }

  /** One step of Filter, stated for a sequence written as head and tail. */
  lemma {:induction false} FilterCons(p: Comment -> bool, x: Comment, s: seq<Comment>)
    ensures Filter(p, [x] + s) == (if p(x) then [x] else []) + Filter(p, s)
  {
    assert ([x] + s)[0] == x && ([x] + s)[1..] == s;
  }

  /** Selecting the comments that satisfy any `p` commutes with the sort. */
  lemma {:induction false} FilterSortCommute(p: Comment -> bool, s: seq<Comment>)
    ensures Filter(p, SortNewestFirst(s)) == SortNewestFirst(Filter(p, s))
  {
    if s != [] {
      var sorted := SortNewestFirst(s[1..]);
      FilterInsert(p, s[0], sorted);
      FilterSortCommute(p, s[1..]);
      var f1 := Filter(p, s[1..]);
      assert Filter(p, s) == (if p(s[0]) then [s[0]] else []) + f1;
      if p(s[0]) {
        var f := [s[0]] + f1;
        assert f[0] == s[0] && f[1..] == f1;
        assert SortNewestFirst(f) == InsertNewestFirst(s[0], SortNewestFirst(f1));
      } else {
        assert Filter(p, s) == f1;
      }
    }
  }

  /** Sorting a sequence that is already newest first changes nothing; in particular the sort is idempotent. */
  lemma {:induction false} SortOfNewestFirst(s: seq<Comment>)
    requires NewestFirst(s)
    ensures SortNewestFirst(s) == s
  {
    if s != [] {
      SortOfNewestFirst(s[1..]);
      assert s == [s[0]] + s[1..];
    }
  }

  /** Comments sharing a modifiedAt keep the relative order they had before the sort. */
  lemma {:induction false} SortIsStable(s: seq<Comment>, t: int)
    ensures Filter((c: Comment) => c.modifiedAt == t, SortNewestFirst(s)) == Filter((c: Comment) => c.modifiedAt == t, s)
  {
    var same := Filter((c: Comment) => c.modifiedAt == t, s);
    FilterMembers((c: Comment) => c.modifiedAt == t, s);
    assert forall j :: 0 <= j < |same| ==> same[j].modifiedAt == t by {
      forall j | 0 <= j < |same| ensures same[j].modifiedAt == t {
        assert same[j] in same;
      }
    }
    FilterSortCommute((c: Comment) => c.modifiedAt == t, s);
    SortOfNewestFirst(same);
  }

  /**
   * The comment list a post response carries, the top-level comments of the
   * sorted list, is exactly the top-level comments of the board, sorted.
   */
  lemma {:induction false} TopLevelOfSorted(s: seq<Comment>)
    ensures Filter(IsTopLevel, SortNewestFirst(s)) == SortNewestFirst(Filter(IsTopLevel, s))
    ensures NewestFirst(Filter(IsTopLevel, SortNewestFirst(s)))
    ensures forall c :: c in Filter(IsTopLevel, SortNewestFirst(s)) <==> c in s && c.parentCommentId == None
  {
    FilterSortCommute(IsTopLevel, s);
    FilterKeepsNewestFirst(IsTopLevel, SortNewestFirst(s));
    FilterMembers(IsTopLevel, SortNewestFirst(s));
    assert forall c :: c in SortNewestFirst(s) <==> c in s by {
      forall c ensures c in SortNewestFirst(s) <==> c in s {
        assert c in SortNewestFirst(s) <==> c in multiset(SortNewestFirst(s));
      }
    }
  }

  /** Filtering distributes over concatenation, which is what lets a loop build the selection left to right. */
  lemma {:induction false} FilterAppend(p: Comment -> bool, a: seq<Comment>, b: seq<Comment>)
    ensures Filter(p, a + b) == Filter(p, a) + Filter(p, b)
  {
    if a != [] {
      assert (a + b)[0] == a[0];
      assert (a + b)[1..] == a[1..] + b;
      FilterAppend(p, a[1..], b);
    } else {
      assert a + b == b;
    }
  }
}
