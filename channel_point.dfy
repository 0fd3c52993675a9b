/**
 * A channel point "txid:vout" and its decomposition with Python's
 * str.split(':') followed by unpacking into exactly two names.
 */
module ChannelPoint {
  import opened Wrappers

  const Colon: char := ':'

  /** Number of occurrences of c in s. */
  function Count(s: string, c: char): nat {
    if s == [] then 0 else (if s[0] == c then 1 else 0) + Count(s[1..], c)
  }

  /**
   * s.split(sep) for a one-character separator: the maximal pieces between
   * separators, empty pieces included, so there is always one more piece
   * than there are separators and no piece holds a separator.
   */
  function Split(s: string, sep: char): (parts: seq<string>)
    ensures |parts| == Count(s, sep) + 1
    ensures forall i :: 0 <= i < |parts| ==> sep !in parts[i]
  {
    if s == [] then [[]]
    else
      var rest := Split(s[1..], sep);
      if s[0] == sep then [[]] + rest
      else [[s[0]] + rest[0]] + rest[1..]
  }

  /** sep.join(parts). */
  function Join(parts: seq<string>, sep: char): string
    requires |parts| > 0
  {
    if |parts| == 1 then parts[0] else parts[0] + [sep] + Join(parts[1..], sep)
  }

  /** Joining the pieces gives back the string that was split. */
  lemma {:induction false} JoinSplit(s: string, sep: char)
    ensures Join(Split(s, sep), sep) == s
  {
    if s != [] {
      var rest := Split(s[1..], sep);
      JoinSplit(s[1..], sep);
      if s[0] != sep {
        if |rest| > 1 {
          assert Split(s, sep)[1..] == rest[1..];
        }
      }
    }
  }

  /** A string without separators splits into itself alone. */
  lemma {:induction false} SplitWithoutSeparator(s: string, sep: char)
    requires sep !in s
    ensures Split(s, sep) == [s]
  {
    if s != [] {
      assert sep !in s[1..];
      SplitWithoutSeparator(s[1..], sep);
      assert s[0] != sep;
      assert [s[0]] + s[1..] == s;
    }
  }

  /** A separator after a separator-free prefix ends the first piece. */
  lemma {:induction false} SplitAtFirstSeparator(a: string, b: string, sep: char)
    requires sep !in a
    ensures Split(a + [sep] + b, sep) == [a] + Split(b, sep)
  {
    if a == [] {
      assert (a + [sep] + b)[1..] == b;
    } else {
      assert (a + [sep] + b)[1..] == a[1..] + [sep] + b;
      assert sep !in a[1..];
      SplitAtFirstSeparator(a[1..], b, sep);
      assert [a[0]] + a[1..] == a;
    }
  }

  /** Splitting a join of separator-free pieces gives back the pieces. */
  lemma {:induction false} SplitJoin(parts: seq<string>, sep: char)
    requires |parts| > 0
    requires forall i :: 0 <= i < |parts| ==> sep !in parts[i]
    ensures Split(Join(parts, sep), sep) == parts
  {
    if |parts| == 1 {
      SplitWithoutSeparator(parts[0], sep);
    } else {
      SplitJoin(parts[1..], sep);
      SplitAtFirstSeparator(parts[0], Join(parts[1..], sep), sep);
      assert [parts[0]] + parts[1..] == parts;
    }
  }

  /**
   * `txid, vout = point.split(':')`: None where the unpacking raises
   * ValueError, that is, unless the point holds exactly one colon.
   * Neither half is otherwise checked; either may be empty.
   */
  function SplitChannelPoint(point: string): (r: Option<(string, string)>)
    ensures r.Some? <==> Count(point, Colon) == 1
    ensures r.Some? ==> r.value.0 + [Colon] + r.value.1 == point
    ensures r.Some? ==> Colon !in r.value.0 && Colon !in r.value.1
  {
    var parts := Split(point, Colon);
    JoinSplit(point, Colon);
    if |parts| == 2 then Some((parts[0], parts[1])) else None
  }

  /** Any two colon-free halves are recovered from the point they form. */
  lemma ChannelPointRoundTrip(txid: string, vout: string)
    requires Colon !in txid && Colon !in vout
    ensures SplitChannelPoint(txid + [Colon] + vout) == Some((txid, vout))
  {
    SplitJoin([txid, vout], Colon);
    assert Join([txid, vout], Colon) == txid + [Colon] + vout;
  }
}
