/** Splitting text at the first or the last occurrence of a character. */
module Splitting {
  import opened Options

  /** Split at the first `c`. */
  function SplitOnce(s: string, c: char): (r: Option<(string, string)>)
    ensures r.Some? ==> s == r.value.0 + [c] + r.value.1 && c !in r.value.0
    ensures r.None? ==> c !in s
  {
    if s == [] then None
    else if s[0] == c then Some(("", s[1..]))
    else match SplitOnce(s[1..], c)
      case None => None
      case Some((a, b)) => Some(([s[0]] + a, b))
  }

  /** Split at the last `c`. */
  function RSplitOnce(s: string, c: char): (r: Option<(string, string)>)
    ensures r.Some? ==> s == r.value.0 + [c] + r.value.1 && c !in r.value.1
    ensures r.None? ==> c !in s
  {
    if s == [] then None
    else
      var n := |s| - 1;
      if s[n] == c then Some((s[..n], ""))
      else match RSplitOnce(s[..n], c)
        case None => None
        case Some((a, b)) => Some((a, b + [s[n]]))
  }

  /** The text before the first `c`, or all of it. */
  function Before(s: string, c: char): string {
    match SplitOnce(s, c)
    case None => s
    case Some((a, _)) => a
  }

  lemma {:induction false} SplitsThere(a: string, c: char, b: string)
    requires c !in a
    ensures SplitOnce(a + [c] + b, c) == Some((a, b))
  {
    var s := a + [c] + b;
    if a == [] {
      assert s[0] == c && s[1..] == b;
    } else {
      assert s[0] == a[0] && s[1..] == a[1..] + [c] + b;
      SplitsThere(a[1..], c, b);
      assert [a[0]] + a[1..] == a;
    }
  }

  lemma {:induction false} RSplitsThere(a: string, c: char, b: string)
    requires c !in b
    ensures RSplitOnce(a + [c] + b, c) == Some((a, b))
  {
    var s := a + [c] + b;
    var n := |s| - 1;
    if b == [] {
      assert s[n] == c && s[..n] == a;
    } else {
      var m := |b| - 1;
      assert s[n] == b[m] && s[..n] == a + [c] + b[..m];
      RSplitsThere(a, c, b[..m]);
      assert b[..m] + [b[m]] == b;
    }
  }

  lemma {:induction false} NoSplit(s: string, c: char)
    requires c !in s
    ensures SplitOnce(s, c) == None && RSplitOnce(s, c) == None
  {
    if s != [] {
      NoSplit(s[1..], c);
      NoSplit(s[..|s| - 1], c);
    }
  }

  /** Text before a tail that is empty or starts with `c`. */
  lemma BeforeTail(a: string, c: char, tail: string)
    requires c !in a && (tail == "" || tail[0] == c)
    ensures Before(a + tail, c) == a
  {
    if tail == "" {
      assert a + tail == a;
      NoSplit(a, c);
    } else {
      assert a + tail == a + [c] + tail[1..];
      SplitsThere(a, c, tail[1..]);
    }
  }
}
