/** String operations of JavaScript that the core relies on: `split`, `join`,
    `includes`, `trim` and `toLowerCase`, over strings as sequences of chars. */
module Text {

  /** Concatenation of a list of strings, left to right (what `+=` in a loop builds). */
  function Concat(parts: seq<string>): string
  {
    if parts == [] then "" else Concat(parts[..|parts| - 1]) + parts[|parts| - 1]
  }

  lemma ConcatSingle(x: string)
    ensures Concat([x]) == x
  {
    assert [x][..0] == [];
    assert "" + x == x;
  }

  lemma {:induction false} ConcatAppend(a: seq<string>, b: seq<string>)
    ensures Concat(a + b) == Concat(a) + Concat(b)
    decreases |b|
  {
    if b == [] {
      assert a + b == a;
    } else {
      var b', x := b[..|b| - 1], b[|b| - 1];
      assert a + b == (a + b') + [x];
      assert b == b' + [x];
      ConcatAppend(a, b');
      ConcatSnoc(a + b', x);
      ConcatSnoc(b', x);
    }
  }

  lemma ConcatSnoc(a: seq<string>, x: string)
    ensures Concat(a + [x]) == Concat(a) + x
  {
    assert (a + [x])[..|a|] == a;
  }

  /** Each part stands in the concatenation right after the parts before it. */
  lemma ConcatPieceAt(parts: seq<string>, k: nat)
    requires k < |parts|
    ensures |Concat(parts[..k])| + |parts[k]| <= |Concat(parts)|
    ensures Concat(parts)[|Concat(parts[..k])|..|Concat(parts[..k])| + |parts[k]|] == parts[k]
  {
    var before, x, after := parts[..k], parts[k], parts[k + 1..];
    assert parts == parts[..k + 1] + after;
    TakeOneMore(parts, k);
    ConcatAppend(parts[..k + 1], after);
    ConcatSnoc(before, x);
    SliceOfMiddle(Concat(before), x, Concat(after), 0, |x|);
    assert x[0..|x|] == x;
  }

  /** `xs.join(sep)`: the elements with `sep` between consecutive ones. */
  function Join(xs: seq<string>, sep: string): (r: string)
    ensures xs == [] ==> r == ""
    ensures xs != [] ==> |xs[0]| <= |r| && |xs[|xs| - 1]| <= |r|
  {
    if xs == [] then ""
    else if |xs| == 1 then xs[0]
    else Join(xs[..|xs| - 1], sep) + sep + xs[|xs| - 1]
  }

  /** A join opens with its first element and closes with its last. */
  lemma {:induction false} JoinEnds(xs: seq<string>, sep: string)
    requires xs != []
    ensures |xs[0]| <= |Join(xs, sep)| && Join(xs, sep)[..|xs[0]|] == xs[0]
    ensures |xs[|xs| - 1]| <= |Join(xs, sep)| && Join(xs, sep)[|Join(xs, sep)| - |xs[|xs| - 1]|..] == xs[|xs| - 1]
    decreases |xs|
  {
    if |xs| > 1 {
      var init := xs[..|xs| - 1];
      JoinEnds(init, sep);
      assert init[0] == xs[0];
      var j := Join(init, sep);
      AppendAssoc(j, sep, xs[|xs| - 1]);
      PrefixOfConcat(xs[0], j[|xs[0]|..] + sep + xs[|xs| - 1]);
      assert j == xs[0] + j[|xs[0]|..];
      SuffixOfConcat(j + sep, xs[|xs| - 1]);
    }
  }

  lemma {:induction false} JoinAppend(a: seq<string>, b: seq<string>, sep: string)
    requires a != [] && b != []
    ensures Join(a + b, sep) == Join(a, sep) + sep + Join(b, sep)
    decreases |b|
  {
    var ab := a + b;
    assert ab[..|ab| - 1] == a + b[..|b| - 1];
    if |b| == 1 {
      assert ab[..|ab| - 1] == a;
    } else {
      var b', last := b[..|b| - 1], b[|b| - 1];
      JoinAppend(a, b', sep);
      var front, y := Join(a, sep) + sep, Join(b', sep);
      assert Join(ab, sep) == Join(a + b', sep) + sep + last;
      assert Join(b, sep) == y + sep + last;
      AppendAssoc(front, y + sep, last);
      AppendAssoc(front, y, sep);
    }
  }

  /** Reading one more character while splitting: a separator closes the current
      piece and opens an empty one; any other character extends the current piece. */
  function Step(pieces: seq<string>, c: char, sep: char): (r: seq<string>)
    requires pieces != []
    ensures |r| >= 1
  {
    if c == sep then pieces + [""]
    else pieces[..|pieces| - 1] + [pieces[|pieces| - 1] + [c]]
  }

  /** `s.split(sep)` for a one-character separator: the pieces between separators,
      found by reading the text from left to right. Like JavaScript it never returns
      an empty list (`"".split(c)` is `[""]`). */
  function Split(s: string, sep: char): (r: seq<string>)
    ensures |r| >= 1
    decreases |s|
  {
    if s == [] then [""] else Step(Split(s[..|s| - 1], sep), s[|s| - 1], sep)
  }

  /** The last piece of a split, that is, the text after the last separator. */
  function LastPiece(s: string, sep: char): string
  {
    var pieces := Split(s, sep);
    pieces[|pieces| - 1]
  }

  /** The pieces before the last one: those a separator has terminated. */
  function TerminatedPieces(s: string, sep: char): seq<string>
  {
    var pieces := Split(s, sep);
    pieces[..|pieces| - 1]
  }

  lemma SplitSnoc(s: string, c: char, sep: char)
    ensures Split(s + [c], sep) == Step(Split(s, sep), c, sep)
  {
    assert (s + [c])[..|s|] == s;
  }

  /** A step only touches the last piece. */
  lemma StepAfter(p: seq<string>, q: seq<string>, c: char, sep: char)
    requires q != []
    ensures Step(p + q, c, sep) == p + Step(q, c, sep)
  {
    if c == sep {
      assert (p + q) + [""] == p + (q + [""]);
    } else {
      var n := |q|;
      assert (p + q)[..|p| + n - 1] == p + q[..n - 1];
      assert (p + q[..n - 1]) + [q[n - 1] + [c]] == p + (q[..n - 1] + [q[n - 1] + [c]]);
    }
  }

  /** No piece of a split contains the separator. */
  lemma {:induction false} SplitPiecesExcludeSep(s: string, sep: char)
    ensures forall i :: 0 <= i < |Split(s, sep)| ==> sep !in Split(s, sep)[i]
    decreases |s|
  {
    if s != [] {
      var p := Split(s[..|s| - 1], sep);
      SplitPiecesExcludeSep(s[..|s| - 1], sep);
      var r := Split(s, sep);
      assert r == Step(p, s[|s| - 1], sep);
      forall i | 0 <= i < |r| ensures sep !in r[i] {
        if s[|s| - 1] != sep && i == |r| - 1 {
          assert r[i] == p[|p| - 1] + [s[|s| - 1]];
        } else {
          assert r[i] == "" || r[i] == p[i];
        }
      }
    }
  }

  /** Joining the pieces with the separator gives back the text. */
  lemma {:induction false} SplitJoin(s: string, sep: char)
    ensures Join(Split(s, sep), [sep]) == s
    decreases |s|
  {
    if s != [] {
      var s', c := s[..|s| - 1], s[|s| - 1];
      var p := Split(s', sep);
      SplitJoin(s', sep);
      StepJoin(p, c, sep);
      DropLast(s);
    }
  }

  lemma StepJoin(p: seq<string>, c: char, sep: char)
    requires p != []
    ensures Join(Step(p, c, sep), [sep]) == Join(p, [sep]) + [c]
  {
    var n := |p|;
    var r := Step(p, c, sep);
    if c == sep {
      assert r[..n] == p;
    } else if n == 1 {
      assert r == [p[0] + [c]];
    } else {
      var front := p[..n - 1];
      assert r[..n - 1] == front;
      assert p == front + [p[n - 1]];
      AppendAssoc(Join(front, [sep]) + [sep], p[n - 1], [c]);
    }
  }

  /** Splitting a text that grows at its end: everything before the last piece of
      `a` is unchanged, and the last piece is split again together with `b`.
      This is what lets a reader keep only the unfinished last line between chunks. */
  lemma {:induction false} SplitAppend(a: string, b: string, sep: char)
    ensures Split(a + b, sep) == TerminatedPieces(a, sep) + Split(LastPiece(a, sep) + b, sep)
    decreases |b|
  {
    var p := Split(a, sep);
    var tp, lp := p[..|p| - 1], p[|p| - 1];
    if b == [] {
      SplitPiecesExcludeSep(a, sep);
      assert sep !in lp;
      SplitNoSep(lp, sep);
      assert a + b == a && lp + b == lp;
      assert p == tp + [lp];
    } else {
      var b', c := b[..|b| - 1], b[|b| - 1];
      var q := Split(lp + b', sep);
      SplitAppend(a, b', sep);
      DropLast(b);
      AppendAssoc(a, b', [c]);
      SplitSnoc(a + b', c, sep);
      StepAfter(tp, q, c, sep);
      AppendAssoc(lp, b', [c]);
      SplitSnoc(lp + b', c, sep);
    }
  }

  /** The terminated pieces of a grown text: those of `a`, then those completed
      by gluing `b` to the last piece of `a`. */
  lemma TerminatedAppend(a: string, b: string, sep: char)
    ensures TerminatedPieces(a + b, sep) == TerminatedPieces(a, sep) + TerminatedPieces(LastPiece(a, sep) + b, sep)
    ensures LastPiece(a + b, sep) == LastPiece(LastPiece(a, sep) + b, sep)
  {
    SplitAppend(a, b, sep);
    var t := Split(LastPiece(a, sep) + b, sep);
    assert (TerminatedPieces(a, sep) + t)[..|TerminatedPieces(a, sep) + t| - 1] == TerminatedPieces(a, sep) + t[..|t| - 1];
  }

  /** Appending text without a separator only extends the last piece. */
  lemma SplitAppendNoSep(a: string, b: string, sep: char)
    requires sep !in b
    ensures TerminatedPieces(a + b, sep) == TerminatedPieces(a, sep)
    ensures LastPiece(a + b, sep) == LastPiece(a, sep) + b
  {
    SplitAppend(a, b, sep);
    SplitPiecesExcludeSep(a, sep);
    SplitNoSep(LastPiece(a, sep) + b, sep);
  }

  /** A text without the separator splits into itself alone. */
  lemma {:induction false} SplitNoSep(s: string, sep: char)
    requires sep !in s
    ensures Split(s, sep) == [s]
    decreases |s|
  {
    if s != [] {
      var s' := s[..|s| - 1];
      DropLast(s);
      assert sep !in s';
      SplitNoSep(s', sep);
    }
  }

  /** One more character ends the last piece when it is the separator, and
      extends it otherwise. */
  lemma LastPieceSnoc(s: string, c: char, sep: char)
    ensures LastPiece(s + [c], sep) == if c == sep then "" else LastPiece(s, sep) + [c]
  {
    SplitSnoc(s, c, sep);
  }

  /** A non-empty sequence is its front followed by its last element. */
  lemma DropLast<T>(s: seq<T>)
    requires s != []
    ensures s == s[..|s| - 1] + [s[|s| - 1]]
  {
  }

  /** The parts of a sequence with one element added at its end. */
  lemma SnocParts<T>(s: seq<T>, x: T)
    ensures |s + [x]| == |s| + 1 && (s + [x])[..|s|] == s && (s + [x])[|s|] == x
  {
  }

  /** Taking one more element of a sequence. */
  lemma TakeOneMore<T>(s: seq<T>, i: nat)
    requires i < |s|
    ensures s[..i + 1] == s[..i] + [s[i]]
  {
  }

  lemma AppendAssoc<T>(a: seq<T>, b: seq<T>, c: seq<T>)
    ensures a + (b + c) == (a + b) + c
  {
  }

  /** The front of a concatenation is its first part. */
  lemma PrefixOfConcat(a: string, b: string)
    ensures (a + b)[..|a|] == a
  {
  }

  /** The back of a concatenation is its last part. */
  lemma SuffixOfConcat(a: string, b: string)
    ensures (a + b)[|a + b| - |b|..] == b
  {
  }

  lemma AppendEmpty(a: string)
    ensures a + "" == a
  {
  }

  /** The k-th piece stands in a text followed by the concatenation right after
      the text and the pieces before it. */
  lemma PieceAfterPrefix(pre: string, parts: seq<string>, k: nat)
    requires k < |parts|
    ensures |pre| + |Concat(parts[..k])| + |parts[k]| <= |pre + Concat(parts)|
    ensures (pre + Concat(parts))[|pre| + |Concat(parts[..k])|..|pre| + |Concat(parts[..k])| + |parts[k]|] == parts[k]
  {
    ConcatPieceAt(parts, k);
    var start := |Concat(parts[..k])|;
    SliceAfterPrefix(pre, Concat(parts), start, start + |parts[k]|);
  }

  /** A slice of the part after a prefix, shifted by the prefix. */
  lemma SliceAfterPrefix(pre: string, s: string, i: nat, j: nat)
    requires i <= j <= |s|
    ensures (pre + s)[|pre| + i..|pre| + j] == s[i..j]
  {
  }

  /** A slice of the middle part of a concatenation. */
  lemma SliceOfMiddle(pre: string, mid: string, post: string, i: nat, j: nat)
    requires i <= j <= |mid|
    ensures |pre| + j <= |pre + mid + post|
    ensures (pre + mid + post)[|pre| + i..|pre| + j] == mid[i..j]
  {
  }

  /** A piece found in a slice of `s` is found in `s`, shifted by where the slice starts. */
  lemma PieceInSlice(s: string, a: nat, t: string, i: nat, piece: string)
    requires a + |t| <= |s| && s[a..a + |t|] == t
    requires i + |piece| <= |t| && t[i..i + |piece|] == piece
    ensures a + i + |piece| <= |s|
    ensures s[a + i..a + i + |piece|] == piece
  {
    assert forall n :: 0 <= n < |piece| ==> s[a + i + n] == t[i + n] == piece[n];
  }

  /** `pat` occurs in `s` starting at index `i`. */
  predicate OccursAt(s: string, pat: string, i: int)
  {
    0 <= i && i + |pat| <= |s| && s[i..i + |pat|] == pat
  }

  /** `s.includes(pat)`: plain substring containment. */
  function Contains(s: string, pat: string): (b: bool)
    ensures b <==> exists i :: OccursAt(s, pat, i)
    decreases |s|
  {
    if |s| < |pat| then false
    else if s[..|pat|] == pat then (assert OccursAt(s, pat, 0); true)
    else
      var b := Contains(s[1..], pat);
      assert b ==> exists i :: OccursAt(s, pat, i) by {
        if b {
          var i :| OccursAt(s[1..], pat, i);
          assert s[1..][i..i + |pat|] == s[i + 1..i + 1 + |pat|];
          assert OccursAt(s, pat, i + 1);
        }
      }
      assert (exists i :: OccursAt(s, pat, i)) ==> b by {
        forall i | OccursAt(s, pat, i) ensures i >= 1 && OccursAt(s[1..], pat, i - 1) {
          assert s[1..][i - 1..i - 1 + |pat|] == s[i..i + |pat|];
        }
      }
      b
  }

  /** A text that contains a pattern holds the pattern's first character. */
  lemma ContainsHasFirst(s: string, pat: string)
    requires pat != []
    ensures Contains(s, pat) ==> pat[0] in s
  {
    if Contains(s, pat) {
      var i :| OccursAt(s, pat, i);
      assert s[i..i + |pat|][0] == s[i];
    }
  }

  /** The characters `String.prototype.trim` removes: ECMAScript WhiteSpace and LineTerminator. */
  function IsWhitespace(c: char): (b: bool)
    ensures c == ' ' || c == '\t' || c == '\n' || c == '\r' ==> b
    ensures b ==> !('a' <= c <= 'z') && !('A' <= c <= 'Z') && !('0' <= c <= '9') && c != '.'
  {
    c == '\t' || c == '\n' || c == '\U{B}' || c == '\U{C}' || c == '\r' || c == ' '
    || c == '\U{A0}' || c == '\U{1680}' || ('\U{2000}' <= c <= '\U{200A}')
    || c == '\U{2028}' || c == '\U{2029}' || c == '\U{202F}' || c == '\U{205F}'
    || c == '\U{3000}' || c == '\U{FEFF}'
  }

  ghost predicate AllWhitespace(s: string)
  {
    forall i :: 0 <= i < |s| ==> IsWhitespace(s[i])
  }

  /** Drop leading whitespace (`trimStart`). */
  function TrimStart(s: string): string
    decreases |s|
  {
    if s != [] && IsWhitespace(s[0]) then TrimStart(s[1..]) else s
  }

  /** Drop trailing whitespace (`trimEnd`). */
  function TrimEnd(s: string): string
    decreases |s|
  {
    if s != [] && IsWhitespace(s[|s| - 1]) then TrimEnd(s[..|s| - 1]) else s
  }

  /** `s.trim()`: never longer than the text, and neither starting nor ending with whitespace. */
  function Trim(s: string): (r: string)
    ensures |r| <= |s|
    ensures r != [] ==> !IsWhitespace(r[0]) && !IsWhitespace(r[|r| - 1])
  {
    TrimStartSpec(s);
    TrimEndSpec(TrimStart(s));
    TrimEnd(TrimStart(s))
  }

  /** What `TrimStart` keeps is a suffix of the text that starts with a
      non-whitespace character (or is empty), and what it drops is whitespace. */
  lemma {:induction false} TrimStartSpec(s: string)
    ensures |TrimStart(s)| <= |s| && TrimStart(s) == s[|s| - |TrimStart(s)|..]
    ensures AllWhitespace(s[..|s| - |TrimStart(s)|])
    ensures TrimStart(s) != [] ==> !IsWhitespace(TrimStart(s)[0])
    decreases |s|
  {
    if s != [] && IsWhitespace(s[0]) {
      TrimStartSpec(s[1..]);
      WhitespaceCons(s, |s| - 1 - |TrimStart(s[1..])|);
    }
  }

  lemma WhitespaceCons(s: string, k: nat)
    requires k < |s| && IsWhitespace(s[0]) && AllWhitespace(s[1..][..k])
    ensures AllWhitespace(s[..k + 1]) && s[1..][k..] == s[k + 1..]
  {
    var front, rest := s[..k + 1], s[1..][..k];
    forall i | 1 <= i < |front| ensures IsWhitespace(front[i]) {
      assert front[i] == rest[i - 1];
    }
  }

  /** What `TrimEnd` keeps is a prefix of the text that ends with a
      non-whitespace character (or is empty), and what it drops is whitespace. */
  lemma {:induction false} TrimEndSpec(s: string)
    ensures |TrimEnd(s)| <= |s| && TrimEnd(s) == s[..|TrimEnd(s)|]
    ensures AllWhitespace(s[|TrimEnd(s)|..])
    ensures TrimEnd(s) != [] ==> !IsWhitespace(TrimEnd(s)[|TrimEnd(s)| - 1])
    decreases |s|
  {
    if s != [] && IsWhitespace(s[|s| - 1]) {
      TrimEndSpec(s[..|s| - 1]);
      WhitespaceSnoc(s, |TrimEnd(s[..|s| - 1])|);
    }
  }

  lemma WhitespaceSnoc(s: string, k: nat)
    requires k < |s| && IsWhitespace(s[|s| - 1]) && AllWhitespace(s[..|s| - 1][k..])
    ensures AllWhitespace(s[k..]) && s[..|s| - 1][..k] == s[..k]
  {
    forall i | 0 <= i < |s| - 1 - k ensures IsWhitespace(s[k..][i]) {
      assert s[k..][i] == s[..|s| - 1][k..][i];
    }
  }

  /** The trimmed text is a slice of the original with only whitespace around it. */
  lemma TrimIsCore(s: string)
    ensures exists i ::
      && 0 <= i <= i + |Trim(s)| <= |s| && Trim(s) == s[i..i + |Trim(s)|]
      && AllWhitespace(s[..i]) && AllWhitespace(s[i + |Trim(s)|..])
  {
    var t := TrimStart(s);
    TrimStartSpec(s);
    TrimEndSpec(t);
    var i := |s| - |t|;
    var r := Trim(s);
    assert t == s[i..];
    assert r == s[i..i + |r|];
    assert t[|r|..] == s[i + |r|..];
  }

  /** The trimmed text is empty exactly when the text is all whitespace. */
  lemma TrimEmptyIff(s: string)
    ensures Trim(s) == "" <==> AllWhitespace(s)
  {
    var t := TrimStart(s);
    TrimStartSpec(s);
    TrimEndSpec(t);
    var k := |s| - |t|;
    assert t == [] <==> Trim(s) == "";
    if t == [] {
      assert s[..k] == s;
    } else {
      assert s[k] == t[0];
    }
  }

  /** Trimming twice is trimming once. */
  lemma TrimIdempotent(s: string)
    ensures Trim(Trim(s)) == Trim(s)
  {
    var r := Trim(s);
    TrimIsCore(s);
    if r != [] {
      assert TrimStart(r) == r;
    }
  }

  /** `toLowerCase` on one character (letters A to Z; see README for the rest). */
  function LowerChar(c: char): char
  {
    if 'A' <= c <= 'Z' then (c as int + 32) as char else c
  }

  /** `s.toLowerCase()`: the same length, character by character, with no
      capital letter left. */
  function ToLower(s: string): (r: string)
    ensures |r| == |s|
    ensures forall i :: 0 <= i < |s| ==> r[i] == LowerChar(s[i])
    ensures forall i :: 0 <= i < |r| ==> !('A' <= r[i] <= 'Z')
  {
    seq(|s|, i requires 0 <= i < |s| => LowerChar(s[i]))
  }

  /** A character that is not a letter is in the lowercased text only if it was in the text. */
  lemma LowerKeepsOut(s: string, c: char)
    requires !('a' <= c <= 'z') && !('A' <= c <= 'Z') && c !in s
    ensures c !in ToLower(s)
  {
    forall i | 0 <= i < |s| ensures ToLower(s)[i] != c {
      assert s[i] != c;
    }
  }

  /** Lowercasing twice is lowercasing once. */
  lemma ToLowerIdempotent(s: string)
    ensures ToLower(ToLower(s)) == ToLower(s)
  {
  }

  lemma ToLowerSnoc(s: string, c: char)
    ensures ToLower(s + [c]) == ToLower(s) + [LowerChar(c)]
  {
  }

  /** Splitting on a character that is not a letter commutes with lowercasing:
      the last piece of the lowercased text is the lowercased last piece. */
  lemma {:induction false} LastPieceLower(s: string, sep: char)
    requires !('a' <= sep <= 'z') && !('A' <= sep <= 'Z')
    ensures LastPiece(ToLower(s), sep) == ToLower(LastPiece(s, sep))
    decreases |s|
  {
    if s != [] {
      var front, c := s[..|s| - 1], s[|s| - 1];
      DropLast(s);
      LastPieceLower(front, sep);
      LastPieceSnoc(front, c, sep);
      ToLowerSnoc(front, c);
      LastPieceSnoc(ToLower(front), LowerChar(c), sep);
      if c != sep {
        ToLowerSnoc(LastPiece(front, sep), c);
      }
    }
  }
}
