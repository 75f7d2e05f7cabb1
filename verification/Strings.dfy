/** The JavaScript string operations the application uses, on `seq<char>`, and the
    JavaScript reading of optional strings (truthiness, `||`, template printing). */
module Strings {
  import opened Wrappers
  import opened Seqs

  /** The characters `String.prototype.trim` removes: the WhiteSpace and
      LineTerminator productions of ECMA-262 (sections 12.2 and 12.3), with the
      space separators of Unicode category Zs written out. */
  const Whitespace: set<char> := {
    ' ', '\t', '\n', '\r', '\U{000B}', '\U{000C}', '\U{00A0}', '\U{FEFF}', '\U{1680}',
    '\U{2000}', '\U{2001}', '\U{2002}', '\U{2003}', '\U{2004}', '\U{2005}',
    '\U{2006}', '\U{2007}', '\U{2008}', '\U{2009}', '\U{200A}',
    '\U{2028}', '\U{2029}', '\U{202F}', '\U{205F}', '\U{3000}'
  }

  predicate IsWhitespace(c: char) {
    c in Whitespace
  }

  predicate AllWhitespace(s: string) {
    forall i :: 0 <= i < |s| ==> IsWhitespace(s[i])
  }

  /** Neither end of `s` is whitespace. */
  predicate Trimmed(s: string) {
    |s| == 0 || (!IsWhitespace(s[0]) && !IsWhitespace(s[|s| - 1]))
  }

  /** The first position at or after `i` that is not whitespace, or `|s|`. */
  function SkipBlanks(s: string, i: nat): (k: nat)
    requires i <= |s|
    ensures i <= k <= |s|
    ensures forall j :: i <= j < k ==> IsWhitespace(s[j])
    ensures k < |s| ==> !IsWhitespace(s[k])
    decreases |s| - i
  {
    if i < |s| && IsWhitespace(s[i]) then SkipBlanks(s, i + 1) else i
  }

  /** Where the run of whitespace that ends `s[lo..hi]` starts. */
  function SkipBlanksBack(s: string, lo: nat, hi: nat): (k: nat)
    requires lo <= hi <= |s|
    ensures lo <= k <= hi
    ensures forall j :: k <= j < hi ==> IsWhitespace(s[j])
    ensures k > lo ==> !IsWhitespace(s[k - 1])
    decreases hi - lo
  {
    if lo < hi && IsWhitespace(s[hi - 1]) then SkipBlanksBack(s, lo, hi - 1) else hi
  }

  /** How many leading characters `Trim` drops. */
  function TrimOffset(s: string): (k: nat)
    ensures k <= |s|
  {
    SkipBlanks(s, 0)
  }

  /** Where the trailing characters `Trim` drops begin. */
  function TrimEndOffset(s: string): (k: nat)
    ensures TrimOffset(s) <= k <= |s|
  {
    SkipBlanksBack(s, TrimOffset(s), |s|)
  }

  /** `s.trim()`: `s` without its leading and trailing whitespace. The result is the
      infix of `s` that starts at `TrimOffset(s)`. */
  function Trim(s: string): (r: string)
    ensures Trimmed(r)
    ensures TrimOffset(s) + |r| <= |s| && r == s[TrimOffset(s)..TrimOffset(s) + |r|]
    ensures AllWhitespace(s[..TrimOffset(s)]) && AllWhitespace(s[TrimOffset(s) + |r|..])
  {
    var lo := TrimOffset(s);
    var hi := TrimEndOffset(s);
    var r := s[lo..hi];
    assert |r| > 0 ==> r[0] == s[lo] && r[|r| - 1] == s[hi - 1];
    r
  }

  /** Whitespace around a trimmed, non-empty core is exactly what `trim` removes. */
  lemma TrimOfPadded(a: string, m: string, b: string)
    requires AllWhitespace(a) && AllWhitespace(b) && Trimmed(m) && m != ""
    ensures Trim(a + m + b) == m
  {
    var s := a + m + b;
    assert s[|a|] == m[0];
    assert s[|a| + |m| - 1] == m[|m| - 1];
    assert forall j :: 0 <= j < |a| ==> s[j] == a[j];
    assert forall j :: |a| + |m| <= j < |s| ==> s[j] == b[j - |a| - |m|];
    var lo := TrimOffset(s);
    assert lo == |a|;
    var hi := TrimEndOffset(s);
    assert hi == |a| + |m|;
    assert s[lo..hi] == m;
  }

  /** A string trims to nothing exactly when it is blank. */
  lemma TrimEmptyIffBlank(s: string)
    ensures Trim(s) == "" <==> AllWhitespace(s)
  {
    var k := TrimOffset(s);
    if Trim(s) == "" {
      assert s == s[..k] + s[k..];
      forall i | 0 <= i < |s|
        ensures IsWhitespace(s[i])
      {
        assert s[i] == s[..k][i];
      }
    } else {
      assert !IsWhitespace(Trim(s)[0]);
      assert Trim(s)[0] == s[k];
    }
  }

  /** Trimming leaves an already trimmed string alone. */
  lemma TrimOfTrimmed(s: string)
    requires Trimmed(s)
    ensures Trim(s) == s
  {
    if s != "" {
      TrimOfPadded("", s, "");
      assert "" + s + "" == s;
    }
  }

  /** Trimming twice is trimming once. */
  lemma TrimIdempotent(s: string)
    ensures Trim(Trim(s)) == Trim(s)
  {
    TrimOfTrimmed(Trim(s));
  }

  /** The number of occurrences of `c` in `s`. */
  function CountChar(s: string, c: char): (n: nat)
    ensures n <= |s|
    ensures n == 0 <==> c !in s
    decreases |s|
  {
    if |s| == 0 then 0
    else (if s[0] == c then 1 else 0) + CountChar(s[1..], c)
  }

  /** `s.split(sep)` for a one-character separator: the maximal separator-free pieces
      between separators, including empty ones at either end. */
  function Split(s: string, sep: char): (r: seq<string>)
    ensures |r| == CountChar(s, sep) + 1
    ensures forall k :: 0 <= k < |r| ==> sep !in r[k]
    decreases |s|
  {
    if |s| == 0 then [""]
    else
      var rest := Split(s[1..], sep);
      if s[0] == sep then [""] + rest
      else [[s[0]] + rest[0]] + rest[1..]
  }

  /** `parts.join(sep)` */
  function Join(parts: seq<string>, sep: string): string
    decreases |parts|
  {
    if |parts| == 0 then ""
    else if |parts| == 1 then parts[0]
    else parts[0] + sep + Join(parts[1..], sep)
  }

  /** Joining the pieces of a split with the separator gives back the input. */
  lemma {:induction false} JoinSplit(s: string, sep: char)
    ensures Join(Split(s, sep), [sep]) == s
    decreases |s|
  {
    if |s| > 0 {
      var rest := Split(s[1..], sep);
      JoinSplit(s[1..], sep);
      if s[0] == sep {
        assert Split(s, sep) == [""] + rest;
        assert ([""] + rest)[1..] == rest;
        assert s == [sep] + s[1..];
      } else {
        var r := Split(s, sep);
        assert r == [[s[0]] + rest[0]] + rest[1..];
        assert r[1..] == rest[1..];
        if |rest| == 1 {
          assert s == [s[0]] + s[1..];
        } else {
          assert Join(rest, [sep]) == rest[0] + [sep] + Join(rest[1..], [sep]);
          assert s == [s[0]] + s[1..];
        }
      }
    }
  }

  /** Splitting a separator-free piece followed by the separator peels that piece off. */
  lemma {:induction false} SplitAfterPiece(p: string, t: string, sep: char)
    requires sep !in p
    ensures Split(p + [sep] + t, sep) == [p] + Split(t, sep)
    decreases |p|
  {
    var s := p + [sep] + t;
    if |p| == 0 {
      assert s == [sep] + t;
      assert s[1..] == t;
    } else {
      assert s[1..] == p[1..] + [sep] + t;
      SplitAfterPiece(p[1..], t, sep);
      var rest := Split(s[1..], sep);
      assert rest == [p[1..]] + Split(t, sep);
      assert s[0] == p[0] && p[0] != sep;
      assert Split(s, sep) == [[p[0]] + rest[0]] + rest[1..];
      assert rest[0] == p[1..] && rest[1..] == Split(t, sep);
      assert [p[0]] + p[1..] == p;
    }
  }

  /** A separator-free string splits into itself alone. */
  lemma {:induction false} SplitOfPiece(p: string, sep: char)
    requires sep !in p
    ensures Split(p, sep) == [p]
    decreases |p|
  {
    if |p| > 0 {
      SplitOfPiece(p[1..], sep);
      assert [p[0]] + p[1..] == p;
    }
  }

  /** Splitting a join of separator-free pieces gives back the pieces. */
  lemma {:induction false} SplitJoin(parts: seq<string>, sep: char)
    requires |parts| >= 1
    requires forall k :: 0 <= k < |parts| ==> sep !in parts[k]
    ensures Split(Join(parts, [sep]), sep) == parts
    decreases |parts|
  {
    if |parts| == 1 {
      SplitOfPiece(parts[0], sep);
    } else {
      SplitJoin(parts[1..], sep);
      SplitAfterPiece(parts[0], Join(parts[1..], [sep]), sep);
      assert [parts[0]] + parts[1..] == parts;
    }
  }

  /** Joining two non-empty lists puts one separator between the two joins. */
  lemma {:induction false} JoinAppend(xs: seq<string>, ys: seq<string>, sep: string)
    requires |xs| > 0 && |ys| > 0
    ensures Join(xs + ys, sep) == Join(xs, sep) + sep + Join(ys, sep)
    decreases |xs|
  {
    if |xs| > 1 {
      JoinAppend(xs[1..], ys, sep);
      assert (xs + ys)[1..] == xs[1..] + ys;
    } else {
      assert (xs + ys)[1..] == ys;
    }
  }

  /** `s.lastIndexOf(c)`: the last position of `c` in `s`, or -1. */
  function LastIndexOf(s: string, c: char): (r: int)
    ensures -1 <= r < |s|
    ensures r == -1 <==> forall j :: 0 <= j < |s| ==> s[j] != c
    ensures r >= 0 ==> s[r] == c
    ensures forall j :: r < j < |s| ==> s[j] != c
    decreases |s|
  {
    if |s| == 0 then -1
    else if s[|s| - 1] == c then |s| - 1
    else
      var r := LastIndexOf(s[..|s| - 1], c);
      assert forall j :: 0 <= j < |s| - 1 ==> s[..|s| - 1][j] == s[j];
      r
  }

  /** `id.substring(id.lastIndexOf('-') + 1).substring(0, 6)`: at most six characters
      from the start of the segment after the last hyphen, or from the start of `id`
      when it has no hyphen. */
  function ShortId(id: string): (r: string)
    ensures |r| <= 6
    ensures forall j :: 0 <= j < |r| ==> r[j] != '-'
    ensures ShortIdStart(id) + |r| <= |id| && r == id[ShortIdStart(id)..ShortIdStart(id) + |r|]
    ensures |r| == if |id| - ShortIdStart(id) <= 6 then |id| - ShortIdStart(id) else 6
  {
    var k := ShortIdStart(id);
    var r := Take(id[k..], 6);
    assert r == id[k..k + |r|];
    assert forall i :: 0 <= i < |r| ==> r[i] == id[k + i];
    r
  }

  /** Where the segment after the last hyphen starts: 0 without a hyphen, and just past
      a hyphen with no hyphen after it otherwise. */
  function ShortIdStart(id: string): (k: nat)
    ensures k <= |id|
    ensures forall j :: k <= j < |id| ==> id[j] != '-'
    ensures k == 0 || id[k - 1] == '-'
  {
    LastIndexOf(id, '-') + 1
  }

  /** For an id of the shape `<prefix>-<segment>` with a hyphen-free segment, the short
      id is the first six characters of the segment, whatever the prefix holds. */
  lemma ShortIdOfLastSegment(prefix: string, segment: string)
    requires '-' !in segment
    ensures ShortId(prefix + "-" + segment) == Take(segment, 6)
  {
    var id := prefix + "-" + segment;
    assert id[|prefix|] == '-';
    assert forall j :: |prefix| < j < |id| ==> id[j] == segment[j - |prefix| - 1];
    assert ShortIdStart(id) == |prefix| + 1;
    assert id[|prefix| + 1..] == segment;
  }

  /** Without a hyphen the short id is the first six characters of the whole id. */
  lemma ShortIdWithoutHyphen(id: string)
    requires '-' !in id
    ensures ShortId(id) == Take(id, 6)
  {
    assert ShortIdStart(id) == 0;
  }

  /** JavaScript truthiness of an optional string: absent and "" are falsy. */
  predicate Truthy(o: Option<string>) {
    o.Some? && o.value != ""
  }

  /** `a || b` on optional strings. */
  function Or(a: Option<string>, b: Option<string>): (r: Option<string>)
    ensures Truthy(a) ==> r == a
    ensures !Truthy(a) ==> r == b
  {
    if Truthy(a) then a else b
  }

  /** `a || fallback` with a string fallback. */
  function OrElse(a: Option<string>, fallback: string): (r: string)
    ensures Truthy(a) ==> r == a.value
    ensures !Truthy(a) ==> r == fallback
  {
    if Truthy(a) then a.value else fallback
  }

  /** Interpolation into a template literal: an absent value prints as "undefined". */
  function Render(o: Option<string>): string {
    match o
    case Some(v) => v
    case None => "undefined"
  }
}
