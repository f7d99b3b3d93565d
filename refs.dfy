/**
 * Connection-point references.  A reference is either a bare connection
 * point `cp`, owned by the descriptor itself, or `entity:cp`, naming the
 * connection point `cp` of a nested entity (a function alias inside a
 * service, a unit id inside a function).  The source takes every reference
 * apart with Python's `str.split(':')`, which `Split` models exactly:
 * empty segments are kept, so "a::b" has three segments and "" has one.
 */
module Refs {

  /** `s.split(':')`: the maximal colon-free pieces of `s`, in order. */
  function Split(s: string): (r: seq<string>)
    ensures |r| >= 1
    decreases |s|
  {
    if |s| == 0 then [""]
    else
      var rest := Split(s[1..]);
      if s[0] == ':' then [""] + rest
      else [[s[0]] + rest[0]] + rest[1..]
  }

  /** Inverse of `Split`: `':'.join(parts)`. */
  function Join(parts: seq<string>): (s: string)
    requires |parts| >= 1
    decreases |parts|
  {
    if |parts| == 1 then parts[0] else parts[0] + ":" + Join(parts[1..])
  }

  /** Number of separators in `s`. */
  function ColonCount(s: string): nat
    decreases |s|
  {
    if |s| == 0 then 0 else (if s[0] == ':' then 1 else 0) + ColonCount(s[1..])
  }

  predicate HasColon(s: string) {
    ':' in s
  }

  /** The owning entity named by a reference: its first segment. */
  function Owner(s: string): string {
    Split(s)[0]
  }

  /** `entity + ':' + cp`, the way the source builds an extended reference. */
  function Compose(entity: string, cp: string): string {
    entity + ":" + cp
  }

  /** A reference the loaders accept: at most one separator. */
  predicate WellFormedRef(s: string) {
    |Split(s)| <= 2
  }

  lemma {:induction false} ColonCountZero(s: string)
    ensures ColonCount(s) == 0 <==> !HasColon(s)
    decreases |s|
  {
    if |s| > 0 {
      ColonCountZero(s[1..]);
      assert s == [s[0]] + s[1..];
    }
  }

  /** One more segment than separators. */
  lemma {:induction false} SplitLength(s: string)
    ensures |Split(s)| == ColonCount(s) + 1
    decreases |s|
  {
    if |s| > 0 {
      SplitLength(s[1..]);
    }
  }

  /** A reference has more than one segment exactly when it has a separator. */
  lemma SplitHasColon(s: string)
    ensures |Split(s)| > 1 <==> HasColon(s)
  {
    SplitLength(s);
    ColonCountZero(s);
  }

  /** No segment contains the separator. */
  lemma {:induction false} SplitPartsColonFree(s: string)
    ensures forall i | 0 <= i < |Split(s)| :: !HasColon(Split(s)[i])
    decreases |s|
  {
    if |s| > 0 {
      SplitPartsColonFree(s[1..]);
      var rest := Split(s[1..]);
      if s[0] != ':' {
        assert !HasColon(rest[0]);
        assert !HasColon([s[0]] + rest[0]);
      }
    }
  }

  /** A colon-free string is a single segment. */
  lemma {:induction false} SplitColonFree(s: string)
    requires !HasColon(s)
    ensures Split(s) == [s]
    decreases |s|
  {
    if |s| > 0 {
      assert ':' !in s[1..] by {
        forall i | 0 <= i < |s[1..]| ensures s[1..][i] != ':' {
          assert s[1..][i] == s[i + 1];
        }
      }
      SplitColonFree(s[1..]);
      assert [s[0]] + s[1..] == s;
    }
  }

  /** Splitting at the first separator. */
  lemma {:induction false} SplitPrefix(x: string, y: string)
    requires !HasColon(x)
    ensures Split(x + ":" + y) == [x] + Split(y)
    decreases |x|
  {
    if |x| == 0 {
      assert x + ":" + y == [':'] + y;
      assert (x + ":" + y)[1..] == y;
    } else {
      var s := x + ":" + y;
      assert s[1..] == x[1..] + ":" + y;
      assert !HasColon(x[1..]) by {
        forall i | 0 <= i < |x[1..]| ensures x[1..][i] != ':' {
          assert x[1..][i] == x[i + 1];
        }
      }
      SplitPrefix(x[1..], y);
      assert [x[0]] + x[1..] == x;
    }
  }

  /** Round trip: joining the segments gives the reference back. */
  lemma {:induction false} JoinSplit(s: string)
    ensures Join(Split(s)) == s
    decreases |s|
  {
    if |s| > 0 {
      JoinSplit(s[1..]);
      var rest := Split(s[1..]);
      if s[0] == ':' {
        assert Split(s) == [""] + rest;
        assert Split(s)[1..] == rest;
        assert Join(Split(s)) == "" + ":" + Join(rest);
        assert s == [s[0]] + s[1..];
      } else {
        var r := Split(s);
        assert r[0] == [s[0]] + rest[0];
        assert r[1..] == rest[1..];
        if |rest| == 1 {
          assert Join(r) == [s[0]] + rest[0];
          assert Join(rest) == rest[0];
        } else {
          assert Join(r) == ([s[0]] + rest[0]) + ":" + Join(rest[1..]);
          assert Join(rest) == rest[0] + ":" + Join(rest[1..]);
        }
        assert s == [s[0]] + s[1..];
      }
    }
  }

  /** Round trip the other way: colon-free parts survive join then split. */
  lemma {:induction false} SplitJoin(parts: seq<string>)
    requires |parts| >= 1
    requires forall i | 0 <= i < |parts| :: !HasColon(parts[i])
    ensures Split(Join(parts)) == parts
    decreases |parts|
  {
    if |parts| == 1 {
      SplitColonFree(parts[0]);
    } else {
      SplitJoin(parts[1..]);
      SplitPrefix(parts[0], Join(parts[1..]));
      assert [parts[0]] + parts[1..] == parts;
    }
  }

  /** `Compose` builds a two-segment reference whose owner is the entity. */
  lemma SplitCompose(entity: string, cp: string)
    requires !HasColon(entity) && !HasColon(cp)
    ensures Split(Compose(entity, cp)) == [entity, cp]
    ensures Owner(Compose(entity, cp)) == entity
    ensures WellFormedRef(Compose(entity, cp))
  {
    SplitJoin([entity, cp]);
    assert Join([entity, cp]) == entity + ":" + Join([cp]);
  }
}
