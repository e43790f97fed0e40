/**
 * BoardService: the post operations of the board, over an in-memory store
 * that stands in for the JPA repository and its persistence context.
 */
module Boards {
  import opened Common
  import opened CommentOrder

  /** A Board entity (a post): who wrote it, when it was last modified, and its comments. */
  datatype Board = Board(id: int, title: string, contents: string, owner: string, modifiedAt: int, comments: seq<Comment>)

  /** BoardRequestsDto: what a client sends to create or edit a post. */
  datatype PostRequest = PostRequest(title: string, contents: string)

  /** BoardResponseDto.from(board, commentList): a post together with the comments shown with it. */
  datatype PostResponse = PostResponse(board: Board, commentList: seq<Comment>)

  /** The board after its comment list has been sorted in place, newest first. */
  function WithSortedComments(b: Board): (sorted: Board) {
    b.(comments := SortNewestFirst(b.comments))
  }

  /** The response for a board once its comments are sorted: the board, and its top-level comments in that order. */
  function Respond(b: Board): (response: PostResponse) {
    var sorted := WithSortedComments(b);
    PostResponse(sorted, Filter(IsTopLevel, sorted.comments))
  }

  /** Board.update(requestsDto, user): new title and contents; the auditing listener stamps modifiedAt. */
  function Updated(b: Board, request: PostRequest, now: int): (updated: Board) {
    b.(title := request.title, contents := request.contents, modifiedAt := now)
  }

  /**
   * The rule shared by updatePost and deletePost: the writer of the post may
   * change it, and so may any user whose role is not USER.
   */
  predicate MayModify(b: Board, user: User) {
    b.owner == user.username || user.role != USER
  }

  /** The authorization matrix of the rule: ADMIN always passes, USER passes exactly on the posts it wrote. */
  lemma AuthorizationMatrix(b: Board, name: string)
    ensures MayModify(b, User(name, ADMIN))
    ensures MayModify(b, User(name, USER)) <==> name == b.owner
  {
  }

  /** The comments a response carries: the top-level ones of `comments`, in the order given. */
  method CollectTopLevel(comments: seq<Comment>) returns (commentList: seq<Comment>)
    ensures commentList == Filter(IsTopLevel, comments)
  {
    commentList := [];
    for i := 0 to |comments|
      invariant commentList == Filter(IsTopLevel, comments[..i])
    {
      var c := comments[i];
      assert comments[..i + 1] == comments[..i] + [c];
      FilterAppend(IsTopLevel, comments[..i], [c]);
      assert [c][1..] == [];
      if c.parentCommentId == None {
        commentList := commentList + [c];
      }
    }
    assert comments[..|comments|] == comments;
  }

  class BoardService {
    /** The boards the repository holds, by id. */
    var boards: map<int, Board>
    /** The next id the database hands out. */
    var nextId: int

    ghost predicate Valid()
      reads this
    {
      forall id :: id in boards ==> boards[id].id == id && id < nextId
    }

    constructor ()
      ensures Valid() && boards == map[]
    {
      boards := map[];
      nextId := 1;
    }

    /**
     * What findAllByOrderByModifiedAtDesc returns, as ids: every stored board
     * exactly once, newest first.
     */
    ghost predicate IsListing(listing: seq<int>)
      reads this
    {
      && (forall i :: 0 <= i < |listing| ==> listing[i] in boards)
      && (forall id :: id in boards ==> id in listing)
      && (forall i, j :: 0 <= i < j < |listing| ==> listing[i] != listing[j])
      && (forall i, j :: 0 <= i < j < |listing| ==> boards[listing[i]].modifiedAt >= boards[listing[j]].modifiedAt)
    }

    /**
     * getPosts: one response per board, in the order of `listing`; each
     * board's comments are sorted newest first in the store, and its response
     * carries the top-level comments of the sorted list.
     */
    method GetPosts(listing: seq<int>) returns (r: seq<PostResponse>)
      requires Valid() && IsListing(listing)
      modifies this
      ensures Valid() && nextId == old(nextId)
      ensures boards.Keys == old(boards).Keys
      ensures forall id :: id in boards ==> boards[id] == WithSortedComments(old(boards)[id])
      ensures |r| == |listing|
      ensures forall i :: 0 <= i < |r| ==> r[i] == Respond(old(boards)[listing[i]])
      ensures forall i, j :: 0 <= i < j < |r| ==> r[i].board.modifiedAt >= r[j].board.modifiedAt
    {
      ghost var before := boards;
      ghost var done: set<int> := {};
      r := [];
      for i := 0 to |listing|
        invariant Valid() && nextId == old(nextId)
        invariant boards.Keys == before.Keys
        invariant done == set k | 0 <= k < i :: listing[k]
        invariant forall id :: id in boards ==>
          boards[id] == if id in done then WithSortedComments(before[id]) else before[id]
        invariant |r| == i
        invariant forall k :: 0 <= k < i ==> r[k] == Respond(before[listing[k]])
      {
        assert listing[i] !in done;
        var response := SortAndRespond(listing[i]);
        r := r + [response];
        done := done + {listing[i]};
      }
      assert forall id :: id in before ==> id in done;
      OrderOfResponses(listing, before, r);
    }

    /** The responses come in the listing's order, so newest first. */
    static lemma OrderOfResponses(listing: seq<int>, before: map<int, Board>, r: seq<PostResponse>)
      requires forall i :: 0 <= i < |listing| ==> listing[i] in before
      requires forall i, j :: 0 <= i < j < |listing| ==> before[listing[i]].modifiedAt >= before[listing[j]].modifiedAt
      requires |r| == |listing| && forall i :: 0 <= i < |r| ==> r[i] == Respond(before[listing[i]])
      ensures forall i, j :: 0 <= i < j < |r| ==> r[i].board.modifiedAt >= r[j].board.modifiedAt
    {
    }

    /**
     * The body of getPosts' loop and the success path of getPost: sort
     * the comments of board `id` in place, and respond with it and its
     * top-level comments.
     */
    method SortAndRespond(id: int) returns (response: PostResponse)
      requires Valid() && id in boards
      modifies this
      ensures Valid() && nextId == old(nextId)
      ensures boards == old(boards)[id := WithSortedComments(old(boards)[id])]
      ensures response == Respond(old(boards)[id])
    {
      var sorted := WithSortedComments(boards[id]);
      boards := boards[id := sorted];
      var commentList := CollectTopLevel(sorted.comments);
      response := PostResponse(sorted, commentList);
    }

    /** createPost: saves a new board written by `user`; the existing boards stay as they are. */
    method CreatePost(request: PostRequest, user: User, now: int) returns (r: Board)
      requires Valid()
      modifies this
      ensures Valid()
      ensures r.id !in old(boards) && boards == old(boards)[r.id := r]
      ensures r == Board(r.id, request.title, request.contents, user.username, now, [])
    {
      r := Board(nextId, request.title, request.contents, user.username, now, []);
      boards := boards[nextId := r];
      nextId := nextId + 1;
    }

    /**
     * getPost: a missing id is NOT_FOUND_WRITING; otherwise the board's
     * comments are sorted newest first in the store, and the response carries
     * the top-level ones.
     */
    method GetPost(id: int) returns (r: Result<PostResponse>)
      requires Valid()
      modifies this
      ensures Valid() && nextId == old(nextId)
      ensures id !in old(boards) ==> r == Err(NOT_FOUND_WRITING) && boards == old(boards)
      ensures id in old(boards) ==>
        && boards == old(boards)[id := WithSortedComments(old(boards)[id])]
        && r == Ok(Respond(old(boards)[id]))
    {
      if id !in boards {
        return Err(NOT_FOUND_WRITING);
      }
      var response := SortAndRespond(id);
      r := Ok(response);
    }

    /** The repository's findByIdAndUser(id, user): the board with that id, when `user` wrote it. */
    function FindByIdAndUser(id: int, user: User): (found: Option<Board>)
      reads this
    {
      if id in boards && boards[id].owner == user.username then Some(boards[id]) else None
    }

    /**
     * updatePost: NOT_FOUND_WRITING for a missing id, whatever the role; then
     * NOT_WRITER exactly when the user neither wrote the post nor has a role
     * other than USER; otherwise the post is edited and nothing else changes.
     */
    method UpdatePost(id: int, request: PostRequest, user: User, now: int) returns (r: Result<Board>)
      requires Valid()
      modifies this
      ensures Valid() && nextId == old(nextId)
      ensures id !in old(boards) ==> r == Err(NOT_FOUND_WRITING)
      ensures id in old(boards) && !MayModify(old(boards)[id], user) ==> r == Err(NOT_WRITER)
      ensures r.Ok? <==> id in old(boards) && MayModify(old(boards)[id], user)
      ensures r.Err? ==> boards == old(boards)
      ensures r.Ok? ==> r.value == Updated(old(boards)[id], request, now) && boards == old(boards)[id := r.value]
    {
      if id !in boards {
        return Err(NOT_FOUND_WRITING);
      }
      var found := FindByIdAndUser(id, user);
      if found.None? && user.role == USER {
        return Err(NOT_WRITER);
      }
      var updated := Updated(boards[id], request, now);
      boards := boards[id := updated];
      r := Ok(updated);
    }

    /**
     * deletePost: the same checks in the same order as updatePost; on success
     * exactly the entry for `id` is removed, and on failure the store is untouched.
     */
    method DeletePost(id: int, user: User) returns (r: Result<()>)
      requires Valid()
      modifies this
      ensures Valid() && nextId == old(nextId)
      ensures id !in old(boards) ==> r == Err(NOT_FOUND_WRITING)
      ensures id in old(boards) && !MayModify(old(boards)[id], user) ==> r == Err(NOT_WRITER)
      ensures r.Ok? <==> id in old(boards) && MayModify(old(boards)[id], user)
      ensures r.Err? ==> boards == old(boards)
      ensures r.Ok? ==> boards == old(boards) - {id}
    {
      if id !in boards {
        return Err(NOT_FOUND_WRITING);
      }
      var board := FindByIdAndUser(id, user);
      if board.None? && user.role == USER {
        return Err(NOT_WRITER);
      }
      boards := boards - {id};
      r := Ok(());
    }
  }
}
