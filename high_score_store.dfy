/**
 * The high-score server: one in-memory integer, read by GET and replaced by
 * POST only with a strictly larger value.
 */
module HighScoreStore {

  /** The POST rule: the stored value after a post of n. */
  function Next(stored: int, n: int): (r: int)
    ensures r >= stored && r >= n && (r == stored || r == n)
  {
    if n > stored then n else stored
  }

  /** The stored value after the given posts, in order, from the initial 0. */
  function Replay(posts: seq<int>): (r: int)
    ensures r >= 0 && (posts != [] ==> r >= posts[|posts| - 1])
  {
    if posts == [] then 0 else Next(Replay(posts[..|posts| - 1]), posts[|posts| - 1])
  }

  /** The posts that were accepted, in order: each beat the value stored when it arrived. */
  function Accepted(posts: seq<int>): (r: seq<int>)
    ensures |r| <= |posts|
    ensures forall k :: 0 <= k < |r| ==> r[k] in posts
  {
    if posts == [] then []
    else
      var earlier := posts[..|posts| - 1];
      var n := posts[|posts| - 1];
      Accepted(earlier) + (if n > Replay(earlier) then [n] else [])
  }

  /** The stored value is the largest of 0 and every post ever made. */
  lemma {:induction false} ReplayIsMaximum(posts: seq<int>)
    ensures Replay(posts) >= 0
    ensures forall k :: 0 <= k < |posts| ==> posts[k] <= Replay(posts)
    ensures Replay(posts) == 0 || Replay(posts) in posts
  {
    if posts != [] {
      var earlier := posts[..|posts| - 1];
      ReplayIsMaximum(earlier);
      assert forall k :: 0 <= k < |earlier| ==> posts[k] == earlier[k];
      assert posts == earlier + [posts[|posts| - 1]];
    }
  }

  /** Later posts never lower the stored value. */
  lemma {:induction false} ReplayNeverDecreases(posts: seq<int>, more: seq<int>)
    ensures Replay(posts) <= Replay(posts + more)
    decreases |more|
  {
    if more != [] {
      var init := more[..|more| - 1];
      ReplayNeverDecreases(posts, init);
      assert (posts + more)[..|posts + more| - 1] == posts + init;
      assert Replay(posts + more) == Next(Replay(posts + init), more[|more| - 1]);
    } else {
      assert posts + more == posts;
    }
  }

  /**
   * The accepted posts are positive and strictly increasing, and the stored
   * value is the last of them (0 when none was accepted).
   */
  lemma {:induction false} AcceptedIncreasing(posts: seq<int>)
    ensures forall k :: 0 <= k < |Accepted(posts)| ==> Accepted(posts)[k] > 0
    ensures forall j, k :: 0 <= j < k < |Accepted(posts)| ==> Accepted(posts)[j] < Accepted(posts)[k]
    ensures Replay(posts) == if Accepted(posts) == [] then 0 else Accepted(posts)[|Accepted(posts)| - 1]
  {
    if posts != [] {
      var earlier := posts[..|posts| - 1];
      AcceptedIncreasing(earlier);
      ReplayIsMaximum(earlier);
    }
  }

  /** Posting the value just accepted again is rejected and changes nothing. */
  lemma RepostIsRejected(posts: seq<int>, n: int)
    requires n > Replay(posts)
    ensures Replay(posts + [n]) == n
    ensures Replay(posts + [n, n]) == Replay(posts + [n])
    ensures Accepted(posts + [n, n]) == Accepted(posts + [n])
  {
    assert (posts + [n, n])[..|posts| + 1] == posts + [n];
    assert (posts + [n])[..|posts|] == posts;
  }

  class Store {
    var highScore: int
    /** Every value POSTed, accepted or not. */
    ghost var posts: seq<int>

    ghost predicate Valid()
      reads this
    {
      highScore == Replay(posts)
    }

    /** The server's start: the stored value is 0. */
    constructor ()
      ensures Valid() && highScore == 0 && posts == []
    {
      highScore := 0;
      posts := [];
    }

    /** GET /api/high-scores: the stored value, unchanged. */
    method Get() returns (value: int)
      ensures value == highScore
    {
      value := highScore;
    }

    /**
     * POST /api/high-scores with body { highScore: n }. `ok` is the 200
     * "High score updated" answer; false is the 400 "New high score is not higher".
     */
    method Post(n: int) returns (ok: bool)
      requires Valid()
      modifies this
      ensures Valid() && posts == old(posts) + [n]
      ensures ok <==> n > old(highScore)
      ensures highScore == if ok then n else old(highScore)
      ensures highScore >= old(highScore) && highScore >= 0
      ensures forall k :: 0 <= k < |posts| ==> posts[k] <= highScore
      ensures highScore == if Accepted(posts) == [] then 0 else Accepted(posts)[|Accepted(posts)| - 1]
    {
      ok := n > highScore;
      if ok {
        highScore := n;
      }
      posts := posts + [n];
      assert posts[..|posts| - 1] == old(posts);
      ReplayIsMaximum(posts);
      AcceptedIncreasing(posts);
    }
  }
}
