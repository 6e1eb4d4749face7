/**
 The `likes` array of a post: a sequence of user ids that the like route
 toggles. Adding is a push at the end; removing is a pull, which drops every
 occurrence of the id and keeps the other entries in their order.
 */
module Likes {

  /** A user id, compared by value. */
  type UserId = string

  /** No user id occurs twice. */
  predicate NoDups(s: seq<UserId>) {
    forall i, j :: 0 <= i < j < |s| ==> s[i] != s[j]
  }

  /** Removes every occurrence of `u` and keeps the rest in order. */
  function Pull(likes: seq<UserId>, u: UserId): (r: seq<UserId>)
    ensures u !in r
    ensures forall v :: v in r <==> v in likes && v != u
    ensures |r| <= |likes|
    decreases |likes|
  {
    if |likes| == 0 then []
    else if likes[0] == u then Pull(likes[1..], u)
    else [likes[0]] + Pull(likes[1..], u)
  }

  /** Pushes `u` when it is absent and pulls it when it is present. */
  function Toggle(likes: seq<UserId>, u: UserId): (r: seq<UserId>)
    ensures u in r <==> u !in likes
    ensures forall v :: v != u ==> (v in r <==> v in likes)
  {
    if u !in likes then likes + [u] else Pull(likes, u)
  }

  /** Splitting off the head of a sequence without duplicates. */
  lemma NoDupsCons(x: UserId, t: seq<UserId>)
    ensures NoDups([x] + t) <==> x !in t && NoDups(t)
  {
    var s := [x] + t;
    if x !in t && NoDups(t) {
      forall i, j | 0 <= i < j < |s| ensures s[i] != s[j] {
        if i == 0 {
          assert s[j] == t[j - 1];
        } else {
          assert s[i] == t[i - 1] && s[j] == t[j - 1];
        }
      }
    }
    if NoDups(s) {
      forall k | 0 <= k < |t| ensures t[k] != x {
        assert s[0] == x && s[k + 1] == t[k];
      }
      forall i, j | 0 <= i < j < |t| ensures t[i] != t[j] {
        assert s[i + 1] == t[i] && s[j + 1] == t[j];
      }
    }
  }

  /** Pulling distributes over concatenation: the order of the kept entries is the original order. */
  lemma {:induction false} PullConcat(a: seq<UserId>, b: seq<UserId>, u: UserId)
    ensures Pull(a + b, u) == Pull(a, u) + Pull(b, u)
    decreases |a|
  {
    if |a| == 0 {
      assert a + b == b;
    } else {
      assert (a + b)[0] == a[0];
      assert (a + b)[1..] == a[1..] + b;
      PullConcat(a[1..], b, u);
    }
  }

  /** Pulling an id that is not there changes nothing. */
  lemma {:induction false} PullAbsent(likes: seq<UserId>, u: UserId)
    requires u !in likes
    ensures Pull(likes, u) == likes
    decreases |likes|
  {
    if |likes| > 0 {
      assert likes == [likes[0]] + likes[1..];
      PullAbsent(likes[1..], u);
    }
  }

  /** Pulling removes exactly the occurrences of `u`, every other count is kept. */
  lemma {:induction false} PullMultiset(likes: seq<UserId>, u: UserId)
    ensures multiset(Pull(likes, u)) == multiset(likes)[u := 0]
    decreases |likes|
  {
    if |likes| > 0 {
      assert likes == [likes[0]] + likes[1..];
      PullMultiset(likes[1..], u);
    }
  }

  /** Pulling never introduces a duplicate. */
  lemma {:induction false} PullKeepsNoDups(likes: seq<UserId>, u: UserId)
    requires NoDups(likes)
    ensures NoDups(Pull(likes, u))
    decreases |likes|
  {
    if |likes| > 0 {
      assert likes == [likes[0]] + likes[1..];
      NoDupsCons(likes[0], likes[1..]);
      PullKeepsNoDups(likes[1..], u);
      if likes[0] != u {
        NoDupsCons(likes[0], Pull(likes[1..], u));
      }
    }
  }

  /** In a sequence without duplicates a present id occurs exactly once. */
  lemma {:induction false} NoDupsCountOne(likes: seq<UserId>, u: UserId)
    requires NoDups(likes) && u in likes
    ensures multiset(likes)[u] == 1
    decreases |likes|
  {
    assert likes == [likes[0]] + likes[1..];
    NoDupsCons(likes[0], likes[1..]);
    if likes[0] == u {
      assert multiset(likes[1..])[u] == 0;
    } else {
      NoDupsCountOne(likes[1..], u);
    }
  }

  /** Toggling keeps the likes free of duplicates. */
  lemma ToggleKeepsNoDups(likes: seq<UserId>, u: UserId)
    requires NoDups(likes)
    ensures NoDups(Toggle(likes, u))
  {
    if u !in likes {
      var r := likes + [u];
      forall i, j | 0 <= i < j < |r| ensures r[i] != r[j] {
        if j == |likes| {
          assert r[i] == likes[i];
        } else {
          assert r[i] == likes[i] && r[j] == likes[j];
        }
      }
    } else {
      PullKeepsNoDups(likes, u);
    }
  }

  /** A like followed by an unlike by the same user restores the likes exactly. */
  lemma ToggleTwiceFromAbsent(likes: seq<UserId>, u: UserId)
    requires u !in likes
    ensures Toggle(Toggle(likes, u), u) == likes
  {
    PullConcat(likes, [u], u);
    PullAbsent(likes, u);
    assert Pull([u], u) == [];
  }

  /** An unlike followed by a like moves `u` to the end of the other likes. */
  lemma ToggleTwiceMovesToEnd(likes: seq<UserId>, u: UserId)
    requires u in likes
    ensures Toggle(Toggle(likes, u), u) == Pull(likes, u) + [u]
  {
  }

  /** An unlike followed by a like keeps the same likers. */
  lemma ToggleTwiceFromPresent(likes: seq<UserId>, u: UserId)
    requires NoDups(likes) && u in likes
    ensures multiset(Toggle(Toggle(likes, u), u)) == multiset(likes)
    ensures |Toggle(Toggle(likes, u), u)| == |likes|
  {
    PullMultiset(likes, u);
    NoDupsCountOne(likes, u);
    var r := Toggle(Toggle(likes, u), u);
    ToggleTwiceMovesToEnd(likes, u);
    assert multiset(r) == multiset(likes)[u := 0] + multiset{u};
    assert multiset(r) == multiset(likes);
    assert |r| == |multiset(r)|;
  }

  /** A toggle changes the number of likes by exactly one. */
  lemma ToggleCount(likes: seq<UserId>, u: UserId)
    requires NoDups(likes)
    ensures u !in likes ==> |Toggle(likes, u)| == |likes| + 1
    ensures u in likes ==> |Toggle(likes, u)| == |likes| - 1
  {
    if u in likes {
      PullMultiset(likes, u);
      NoDupsCountOne(likes, u);
      assert |Pull(likes, u)| == |multiset(Pull(likes, u))|;
      assert |likes| == |multiset(likes)|;
    }
  }
}
