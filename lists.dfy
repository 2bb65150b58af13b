/**
 * Lists of identifiers as the documents keep them (likes, followers,
 * following): `Remove` is both Mongoose's `pull` and the
 * `filter(id => id !== x)` of the unfollow handler.
 */
module Lists {

  import opened Http

  /** No element occurs twice in `s`. */
  predicate NoDuplicates<T(==)>(s: seq<T>)
  {
    forall i, j :: 0 <= i < j < |s| ==> s[i] != s[j]
  }

  /** Every occurrence of `x` taken out of `s`; the other elements keep their order. */
  function Remove(s: seq<UserId>, x: UserId): (r: seq<UserId>)
    ensures x !in r
    ensures forall y :: y in r <==> y in s && y != x
    ensures |r| <= |s|
    ensures x in s ==> |r| < |s|
  {
    if s == [] then []
    else if s[0] == x then Remove(s[1..], x)
    else [s[0]] + Remove(s[1..], x)
  }

  /** Removing a value that is not there leaves the list exactly as it was. */
  lemma {:induction false} RemoveAbsent(s: seq<UserId>, x: UserId)
    requires x !in s
    ensures Remove(s, x) == s
  {
    if s != [] {
      RemoveAbsent(s[1..], x);
    }
  }

  /** Removing is idempotent: a second removal of the same value changes nothing. */
  lemma RemoveIdempotent(s: seq<UserId>, x: UserId)
    ensures Remove(Remove(s, x), x) == Remove(s, x)
  {
    RemoveAbsent(Remove(s, x), x);
  }

  /** Removal distributes over concatenation. */
  lemma {:induction false} RemoveConcat(s: seq<UserId>, t: seq<UserId>, x: UserId)
    ensures Remove(s + t, x) == Remove(s, x) + Remove(t, x)
  {
    if s == [] {
      assert s + t == t;
    } else {
      assert (s + t)[1..] == s[1..] + t;
      RemoveConcat(s[1..], t, x);
    }
  }

  /** Appending a value that was absent and then removing it restores the list. */
  lemma AppendThenRemove(s: seq<UserId>, x: UserId)
    requires x !in s
    ensures Remove(s + [x], x) == s
  {
    RemoveConcat(s, [x], x);
    RemoveAbsent(s, x);
  }

  /** Removal keeps a duplicate-free list duplicate-free. */
  lemma {:induction false} RemoveKeepsNoDuplicates(s: seq<UserId>, x: UserId)
    requires NoDuplicates(s)
    ensures NoDuplicates(Remove(s, x))
  {
    if s != [] {
      assert NoDuplicates(s[1..]) by {
        forall i, j | 0 <= i < j < |s[1..]| ensures s[1..][i] != s[1..][j] {
          assert s[1..][i] == s[i + 1] && s[1..][j] == s[j + 1];
        }
      }
      RemoveKeepsNoDuplicates(s[1..], x);
      if s[0] != x {
        var r := Remove(s[1..], x);
        assert s[0] !in r by {
          assert s[0] !in s[1..];
        }
        forall i, j | 0 <= i < j < |[s[0]] + r| ensures ([s[0]] + r)[i] != ([s[0]] + r)[j] {
          if i > 0 {
            assert ([s[0]] + r)[i] == r[i - 1];
          }
          assert ([s[0]] + r)[j] == r[j - 1];
        }
      }
    }
  }

  /** Appending a value that is absent keeps a duplicate-free list duplicate-free. */
  lemma AppendKeepsNoDuplicates(s: seq<UserId>, x: UserId)
    requires NoDuplicates(s) && x !in s
    ensures NoDuplicates(s + [x])
  {
  }
}
