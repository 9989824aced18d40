/** The two Python string builtins the core relies on: str.split(sep, 1) and str.join. */
module Strings {

  /**
   * s.split(sep, 1) for a one-character separator: the whole string when
   * sep does not occur, otherwise the text before its first occurrence
   * and everything after it.
   */
  function SplitOnce(s: string, sep: char): (parts: seq<string>)
    ensures 1 <= |parts| <= 2
    ensures |parts| == 1 <==> sep !in s
    ensures |parts| == 1 ==> parts[0] == s
    ensures |parts| == 2 ==> sep !in parts[0] && s == parts[0] + [sep] + parts[1]
  {
    if |s| == 0 then [s]
    else if s[0] == sep then ["", s[1..]]
    else
      var rest := SplitOnce(s[1..], sep);
      if |rest| == 1 then [s] else [[s[0]] + rest[0], rest[1]]
  }

  /** The position of the first occurrence of c in s. */
  function IndexOf(s: string, c: char): (i: nat)
    requires c in s
    ensures i < |s| && s[i] == c && c !in s[..i]
  {
    if s[0] == c then 0 else 1 + IndexOf(s[1..], c)
  }

  /** In x + c + y, the first c is the one right after x when x holds none. */
  lemma IndexOfMarked(x: string, y: string, c: char)
    requires c !in x
    ensures IndexOf(x + [c] + y, c) == |x|
  {
    var s := x + [c] + y;
    assert s[..|x|] == x;
    assert s[|x|] == c;
  }

  /** A string with a marked character splits in only one way at that character's first occurrence. */
  lemma SplitAtFirstUnique(x: string, y: string, x': string, y': string, sep: char)
    requires x + [sep] + y == x' + [sep] + y'
    requires sep !in x && sep !in x'
    ensures x == x' && y == y'
  {
    var s := x + [sep] + y;
    IndexOfMarked(x, y, sep);
    IndexOfMarked(x', y', sep);
    assert x == s[..|x|] == x';
    assert y == s[|x| + 1..] == y';
  }

  /** Splitting x + sep + y gives back x and y when x does not contain sep. */
  lemma SplitOnceOfJoined(x: string, y: string, sep: char)
    requires sep !in x
    ensures SplitOnce(x + [sep] + y, sep) == [x, y]
  {
    var parts := SplitOnce(x + [sep] + y, sep);
    assert (x + [sep] + y)[|x|] == sep;
    SplitAtFirstUnique(parts[0], parts[1], x, y, sep);
  }

  function TotalLength(parts: seq<string>): nat {
    if |parts| == 0 then 0 else |parts[0]| + TotalLength(parts[1..])
  }

  /** sep.join(parts): the parts in order with sep between neighbours. */
  function Join(sep: string, parts: seq<string>): (r: string)
    ensures |r| == TotalLength(parts) + (if |parts| == 0 then 0 else (|parts| - 1) * |sep|)
    ensures |parts| == 0 ==> r == ""
    ensures |parts| == 1 ==> r == parts[0]
    ensures |parts| > 0 ==> r[..|parts[0]|] == parts[0]
  {
    if |parts| == 0 then ""
    else if |parts| == 1 then parts[0]
    else parts[0] + sep + Join(sep, parts[1..])
  }

  /** Joining two non-empty groups is joining each group and then the two results. */
  lemma {:induction false} JoinAppend(sep: string, a: seq<string>, b: seq<string>)
    requires |a| > 0 && |b| > 0
    ensures Join(sep, a + b) == Join(sep, a) + sep + Join(sep, b)
    decreases |a|
  {
    if |a| == 1 {
      assert (a + b)[1..] == b;
    } else {
      assert (a + b)[1..] == a[1..] + b;
      JoinAppend(sep, a[1..], b);
    }
  }

  /**
   * Between fixed brackets, appending a part to a non-empty list puts the
   * separator and the part just before the closing bracket.
   */
  lemma JoinAppendEnclosed(open: string, close: string, sep: string, parts: seq<string>, last: string)
    requires |parts| > 0
    ensures var before := open + Join(sep, parts) + close;
      && |before| >= |close| && before[|before| - |close|..] == close
      && open + Join(sep, parts + [last]) + close == before[..|before| - |close|] + sep + last + close
  {
    var joined := Join(sep, parts);
    JoinAppend(sep, parts, [last]);
    assert Join(sep, parts + [last]) == joined + sep + last;
    ExtendBeforeSuffix(open, joined, sep, last, close);
  }

  /** In open + joined + close, text added after joined lands just before the closing suffix. */
  lemma ExtendBeforeSuffix(open: string, joined: string, sep: string, last: string, close: string)
    ensures var before := open + joined + close;
      && |before| >= |close| && before[|before| - |close|..] == close
      && open + (joined + sep + last) + close == before[..|before| - |close|] + sep + last + close
  {
    var before := open + joined + close;
    assert before[..|before| - |close|] == open + joined;
    assert before[|before| - |close|..] == close;
  }
}
