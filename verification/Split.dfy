/** Splitting on a separator and joining again, as the standard library's `split` and `join` do. */
module Split {

  /** The position of the first `sep`, or the length of `s`. */
  function Find<T(==)>(s: seq<T>, sep: T): (i: nat)
    ensures i <= |s|
    ensures sep !in s[..i]
    ensures i < |s| ==> s[i] == sep
  {
    if s == [] then 0
    else if s[0] == sep then 0
    else
      var j := Find(s[1..], sep);
      assert s[..j + 1] == [s[0]] + s[1..][..j];
      j + 1
  }

  /** The pieces between separators; always at least one piece, possibly empty ones. */
  function Split<T(==)>(s: seq<T>, sep: T): (parts: seq<seq<T>>)
    ensures |parts| >= 1
    ensures forall k :: 0 <= k < |parts| ==> sep !in parts[k]
    decreases |s|
  {
    var i := Find(s, sep);
    if i == |s| then [s] else [s[..i]] + Split(s[i + 1..], sep)
  }

  function Join<T>(parts: seq<seq<T>>, sep: T): (s: seq<T>)
  {
    if parts == [] then []
    else if |parts| == 1 then parts[0]
    else parts[0] + [sep] + Join(parts[1..], sep)
  }

  lemma FindIs<T>(s: seq<T>, sep: T, i: nat)
    requires i <= |s| && sep !in s[..i] && (i < |s| ==> s[i] == sep)
    ensures Find(s, sep) == i
  {
    var j := Find(s, sep);
    assert forall k :: 0 <= k < i ==> s[..i][k] == s[k];
    assert forall k :: 0 <= k < j ==> s[..j][k] == s[k];
  }

  /** Splitting at the first separator. */
  lemma SplitAt<T>(s: seq<T>, sep: T, i: nat)
    requires i <= |s| && sep !in s[..i] && (i < |s| ==> s[i] == sep)
    ensures Split(s, sep) == if i == |s| then [s] else [s[..i]] + Split(s[i + 1..], sep)
  {
    hide Find;
    FindIs(s, sep, i);
  }

  lemma SplitNone<T>(s: seq<T>, sep: T)
    requires sep !in s
    ensures Split(s, sep) == [s]
  {
    hide Split;
    assert s[..|s|] == s;
    SplitAt(s, sep, |s|);
  }

  /** A separator stands between the pieces of what is before it and of what is after it. */
  lemma {:induction false} SplitAppend<T>(a: seq<T>, b: seq<T>, sep: T)
    ensures Split(a + [sep] + b, sep) == Split(a, sep) + Split(b, sep)
    decreases |a|
  {
    hide Find, Split;
    var s, i := a + [sep] + b, Find(a, sep);
    assert s[..i] == a[..i] && s[i] == sep;
    SplitAt(s, sep, i);
    SplitAt(a, sep, i);
    if i == |a| {
      assert s[i + 1..] == b && a[..i] == a;
    } else {
      assert s[i + 1..] == a[i + 1..] + [sep] + b;
      SplitAppend(a[i + 1..], b, sep);
      Regroup(a[..i], Split(a[i + 1..], sep), Split(b, sep));
    }
  }

  /** Joining what was split gives the whole back. */
  lemma {:induction false} JoinSplit<T>(s: seq<T>, sep: T)
    ensures Join(Split(s, sep), sep) == s
    decreases |s|
  {
    hide Find, Split;
    var i := Find(s, sep);
    SplitAt(s, sep, i);
    if i < |s| {
      JoinSplit(s[i + 1..], sep);
      JoinCons(s[..i], Split(s[i + 1..], sep), sep);
      assert s[..i] + [sep] + s[i + 1..] == s;
    }
  }

  lemma JoinCons<T>(head: seq<T>, rest: seq<seq<T>>, sep: T)
    requires rest != []
    ensures Join([head] + rest, sep) == head + [sep] + Join(rest, sep)
  {
    assert ([head] + rest)[1..] == rest;
  }

  lemma Regroup<T>(head: T, a: seq<T>, b: seq<T>)
    ensures [head] + (a + b) == [head] + a + b
  {
  }

  /** Splitting what was joined gives the parts back, if none of them holds the separator. */
  lemma {:induction false} SplitJoin<T>(parts: seq<seq<T>>, sep: T)
    requires parts != []
    requires forall k :: 0 <= k < |parts| ==> sep !in parts[k]
    ensures Split(Join(parts, sep), sep) == parts
  {
    hide Split;
    var s := Join(parts, sep);
    var n := |parts[0]|;
    if |parts| == 1 {
      assert s[..n] == s;
      SplitAt(s, sep, n);
    } else {
      assert s[..n] == parts[0] && s[n] == sep && s[n + 1..] == Join(parts[1..], sep);
      SplitAt(s, sep, n);
      SplitJoin(parts[1..], sep);
    }
  }
}
