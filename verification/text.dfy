/** Text operations the ledger relies on: JavaScript's `String.prototype.trim`
    (applied to the description field) and `Array.prototype.join` with a
    one-character separator (used to build the CSV file), together with
    `String.prototype.split`, the inverse of the join, used to state what a
    reader of the exported file gets back. */
module Text {

  /** The characters `trim` removes: ECMAScript's WhiteSpace (tab, vertical tab,
      form feed, no-break space, byte order mark and every space separator of
      Unicode category Zs) and LineTerminator (line feed, carriage return, line
      separator, paragraph separator). */
  predicate IsSpace(c: char)
    ensures c < '\U{80}' ==>
              (IsSpace(c) <==> c == '\t' || c == '\n' || c == '\U{0B}' || c == '\U{0C}' || c == '\r' || c == ' ')
    ensures IsSpace(c) ==> '\t' <= c <= '\U{FEFF}'
  {
    || c == '\t' || c == '\n' || c == '\U{0B}' || c == '\U{0C}' || c == '\r'
    || c == ' ' || c == '\U{A0}' || c == '\U{1680}'
    || ('\U{2000}' <= c <= '\U{200A}')
    || c == '\U{2028}' || c == '\U{2029}' || c == '\U{202F}' || c == '\U{205F}'
    || c == '\U{3000}' || c == '\U{FEFF}'
  }

  predicate AllSpace(s: string)
  {
    forall k :: 0 <= k < |s| ==> IsSpace(s[k])
  }

  /** The position of the first character of `s`, at or after `i`, that is
      not white space, or `|s|` when there is none. */
  function FirstNonSpace(s: string, i: nat): (j: nat)
    requires i <= |s|
    ensures i <= j <= |s|
    ensures forall k :: i <= k < j ==> IsSpace(s[k])
    ensures j < |s| ==> !IsSpace(s[j])
    decreases |s| - i
  {
    if i < |s| && IsSpace(s[i]) then FirstNonSpace(s, i + 1) else i
  }

  /** The position just past the last character of `s[i..j]` that is not
      white space, or `i` when there is none. */
  function EndOfNonSpace(s: string, i: nat, j: nat): (e: nat)
    requires i <= j <= |s|
    ensures i <= e <= j
    ensures forall k :: e <= k < j ==> IsSpace(s[k])
    ensures e > i ==> !IsSpace(s[e - 1])
    decreases j
  {
    if j > i && IsSpace(s[j - 1]) then EndOfNonSpace(s, i, j - 1) else j
  }

  /** `String.prototype.trim`: `s` without its leading and trailing white
      space. The result is a slice of `s` whose two ends are not white space,
      everything cut off is white space, and it is empty exactly when `s` is
      made of white space only. */
  function Trim(s: string): (r: string)
    ensures exists i :: 0 <= i <= |s| - |r| && r == s[i..i + |r|]
                        && AllSpace(s[..i]) && AllSpace(s[i + |r|..])
    ensures r != [] ==> !IsSpace(r[0]) && !IsSpace(r[|r| - 1])
    ensures r == [] <==> AllSpace(s)
  {
    var i := FirstNonSpace(s, 0);
    var e := EndOfNonSpace(s, i, |s|);
    TrimSlice(s, i, e);
    s[i..e]
  }

  /** The slice between the leading and the trailing white space has the
      properties of a trim. */
  lemma TrimSlice(s: string, i: nat, e: nat)
    requires i <= e <= |s|
    requires forall k :: 0 <= k < i ==> IsSpace(s[k])
    requires i < |s| ==> !IsSpace(s[i])
    requires forall k :: e <= k < |s| ==> IsSpace(s[k])
    requires e > i ==> !IsSpace(s[e - 1])
    ensures var r := s[i..e];
            && 0 <= i <= |s| - |r| && r == s[i..i + |r|]
            && AllSpace(s[..i]) && AllSpace(s[i + |r|..])
            && (r != [] ==> !IsSpace(r[0]) && !IsSpace(r[|r| - 1]))
            && (r == [] <==> AllSpace(s))
  {
    assert AllSpace(s[..i]) by {
      forall k | 0 <= k < i ensures IsSpace(s[..i][k]) {
        assert s[..i][k] == s[k];
      }
    }
    assert AllSpace(s[e..]) by {
      forall k | 0 <= k < |s| - e ensures IsSpace(s[e..][k]) {
        assert s[e..][k] == s[e + k];
      }
    }
    if i == e {
      assert AllSpace(s);
    }
  }

  /** A text with no white space at either end is its own trim; in
      particular trimming twice is trimming once. */
  lemma TrimUnpadded(s: string)
    requires s != [] ==> !IsSpace(s[0]) && !IsSpace(s[|s| - 1])
    ensures Trim(s) == s
  {
    assert FirstNonSpace(s, 0) == 0;
    assert EndOfNonSpace(s, 0, |s|) == |s|;
    assert s[0..|s|] == s;
  }

  /** Trimming twice is trimming once. */
  lemma TrimIdempotent(s: string)
    ensures Trim(Trim(s)) == Trim(s)
  {
    TrimUnpadded(Trim(s));
  }

  /** `Array.prototype.join(sep)`: the strings of `xs` with `sep` between
      neighbours; the empty array joins to the empty string. */
  function Join(xs: seq<string>, sep: char): string
  {
    if |xs| == 0 then []
    else if |xs| == 1 then xs[0]
    else xs[0] + [sep] + Join(xs[1..], sep)
  }

  /** Joining a string in front of a non-empty list puts one separator
      between it and the join of the rest. */
  lemma JoinCons(x: string, xs: seq<string>, sep: char)
    requires xs != []
    ensures Join([x] + xs, sep) == x + [sep] + Join(xs, sep)
  {
    assert ([x] + xs)[1..] == xs;
  }

  /** Joining pieces that do not contain the separator puts exactly one
      separator between neighbours: one fewer than there are pieces. */
  lemma {:induction false} JoinSeparators(xs: seq<string>, sep: char)
    requires xs != []
    requires forall k :: 0 <= k < |xs| ==> sep !in xs[k]
    ensures multiset(Join(xs, sep))[sep] == |xs| - 1
  {
    if |xs| > 1 {
      assert forall k :: 0 <= k < |xs| - 1 ==> xs[1..][k] == xs[k + 1];
      JoinSeparators(xs[1..], sep);
      assert sep !in xs[0];
      assert multiset(xs[0] + [sep] + Join(xs[1..], sep))
             == multiset(xs[0]) + multiset{sep} + multiset(Join(xs[1..], sep));
    }
  }

  /** `String.prototype.split(sep)` for a one-character separator: the pieces
      of `s` between occurrences of `sep`. There is one piece more than there
      are separators, and no piece contains the separator. */
  function Split(s: string, sep: char): (r: seq<string>)
    ensures |r| == multiset(s)[sep] + 1
    ensures forall k :: 0 <= k < |r| ==> sep !in r[k]
  {
    if s == [] then [[]]
    else
      var rest := Split(s[1..], sep);
      assert s == [s[0]] + s[1..];
      if s[0] == sep then [[]] + rest else [[s[0]] + rest[0]] + rest[1..]
  }

  lemma {:induction false} SplitWithout(s: string, sep: char)
    requires sep !in s
    ensures Split(s, sep) == [s]
  {
    if s != [] {
      SplitWithout(s[1..], sep);
      assert s == [s[0]] + s[1..];
    }
  }

  lemma {:induction false} SplitAfter(a: string, sep: char, b: string)
    requires sep !in a
    ensures Split(a + [sep] + b, sep) == [a] + Split(b, sep)
  {
    if a == [] {
      assert (a + [sep] + b)[1..] == b;
    } else {
      assert (a + [sep] + b)[1..] == a[1..] + [sep] + b;
      SplitAfter(a[1..], sep, b);
      assert a == [a[0]] + a[1..];
    }
  }

  /** Splitting undoes joining, provided no piece contains the separator:
      the pieces come back, in order and unchanged. */
  lemma {:induction false} SplitJoin(xs: seq<string>, sep: char)
    requires xs != []
    requires forall k :: 0 <= k < |xs| ==> sep !in xs[k]
    ensures Split(Join(xs, sep), sep) == xs
  {
    if |xs| == 1 {
      SplitWithout(xs[0], sep);
    } else {
      SplitJoin(xs[1..], sep);
      SplitAfter(xs[0], sep, Join(xs[1..], sep));
      assert xs == [xs[0]] + xs[1..];
    }
  }
}
