/** Searching and splitting text, as Foundation's `String` methods do. */
module Text {

  /** `pat` occurs in `s` starting at index `i`. */
  predicate OccursAt(s: string, pat: string, i: nat) {
    i + |pat| <= |s| && s[i..i + |pat|] == pat
  }

  /** `s.contains(pat)`: some occurrence of `pat` starts somewhere in `s`. */
  predicate Contains(s: string, pat: string)
  {
    if |s| < |pat| then false else s[..|pat|] == pat || Contains(s[1..], pat)
  }

  lemma {:induction false} ContainsMeansOccurs(s: string, pat: string)
    ensures Contains(s, pat) <==> exists i: nat :: OccursAt(s, pat, i)
    decreases |s|
  {
    if |s| < |pat| {
      forall i: nat ensures !OccursAt(s, pat, i) {}
    } else if s[..|pat|] == pat {
      assert OccursAt(s, pat, 0);
    } else {
      ContainsMeansOccurs(s[1..], pat);
      forall i: nat | OccursAt(s, pat, i) ensures OccursAt(s[1..], pat, i - 1) {
        assert i > 0;
        assert s[1..][i - 1..i - 1 + |pat|] == s[i..i + |pat|];
      }
      forall i: nat | OccursAt(s[1..], pat, i) ensures OccursAt(s, pat, i + 1) {
        assert s[1..][i..i + |pat|] == s[i + 1..i + 1 + |pat|];
      }
    }
  }

  /** Index of the first `c` in `s`. */
  function IndexOf(s: string, c: char): (i: nat)
    requires c in s
    ensures i < |s| && s[i] == c && c !in s[..i]
  {
    if s[0] == c then 0 else 1 + IndexOf(s[1..], c)
  }

  /** `s.components(separatedBy: [sep]).first!`: the text before the first `sep`, or all of `s`. */
  function BeforeFirst(s: string, sep: char): (r: string)
  {
    if sep in s then s[..IndexOf(s, sep)] else s
  }

  lemma BeforeFirstSpec(s: string, sep: char)
    ensures |BeforeFirst(s, sep)| <= |s| && BeforeFirst(s, sep) == s[..|BeforeFirst(s, sep)|]
    ensures sep !in BeforeFirst(s, sep)
    ensures |BeforeFirst(s, sep)| < |s| ==> s[|BeforeFirst(s, sep)|] == sep
  {
  }

  /** The first occurrence is the only index before which the character is absent. */
  lemma IndexOfUnique(s: string, c: char, i: nat)
    requires i < |s| && s[i] == c && c !in s[..i]
    ensures IndexOf(s, c) == i
  {
  }

  /** A separator-free head is kept whole in front of the tail's first piece. */
  lemma BeforeFirstAppend(a: string, b: string, sep: char)
    requires sep !in a && sep in b
    ensures BeforeFirst(a + b, sep) == a + BeforeFirst(b, sep)
  {
    var j := IndexOf(b, sep);
    var s := a + b;
    assert s[|a| + j] == sep;
    assert s[..|a| + j] == a + b[..j];
    IndexOfUnique(s, sep, |a| + j);
  }

  /** Once the head holds the separator, the tail does not matter. */
  lemma BeforeFirstPrefix(a: string, b: string, sep: char)
    requires sep in a
    ensures BeforeFirst(a + b, sep) == BeforeFirst(a, sep)
  {
    var j := IndexOf(a, sep);
    var s := a + b;
    assert s[j] == sep;
    assert s[..j] == a[..j];
    IndexOfUnique(s, sep, j);
  }

  /** `s.components(separatedBy: [sep])`: the pieces between separators, in order. */
  function Split(s: string, sep: char): (r: seq<string>)
    ensures |r| > 0
    ensures forall k :: 0 <= k < |r| ==> sep !in r[k]
    decreases |s|
  {
    if sep in s then [s[..IndexOf(s, sep)]] + Split(s[IndexOf(s, sep) + 1..], sep) else [s]
  }

  /** The first piece is the text before the first separator. */
  lemma SplitFirst(s: string, sep: char)
    ensures Split(s, sep)[0] == BeforeFirst(s, sep)
  {
  }

  /** Splitting a text made of a separator-free head, a separator and a tail. */
  lemma SplitCons(head: string, sep: char, tail: string)
    requires sep !in head
    ensures Split(head + [sep] + tail, sep) == [head] + Split(tail, sep)
  {
    var s := head + [sep] + tail;
    assert s[|head|] == sep;
    var i := IndexOf(s, sep);
    assert i == |head|;
    assert s[..i] == head;
    assert s[i + 1..] == tail;
  }

  /** The joined pieces split back into the same pieces. */
  lemma {:induction false} SplitJoin(pieces: seq<string>, sep: char)
    requires |pieces| > 0
    requires forall k :: 0 <= k < |pieces| ==> sep !in pieces[k]
    ensures Split(Join(pieces, sep), sep) == pieces
    decreases |pieces|
  {
    if |pieces| == 1 {
    } else {
      SplitJoin(pieces[1..], sep);
      SplitCons(pieces[0], sep, Join(pieces[1..], sep));
    }
  }

  /** `pieces.joined(separator: String(sep))`. */
  function Join(pieces: seq<string>, sep: char): string
    requires |pieces| > 0
    decreases |pieces|
  {
    if |pieces| == 1 then pieces[0] else pieces[0] + [sep] + Join(pieces[1..], sep)
  }

  /** A character found in no piece, and not the separator, is not in the joined text. */
  lemma {:induction false} JoinLacks(pieces: seq<string>, sep: char, c: char)
    requires |pieces| > 0 && c != sep
    requires forall k :: 0 <= k < |pieces| ==> c !in pieces[k]
    ensures c !in Join(pieces, sep)
    decreases |pieces|
  {
    if |pieces| > 1 {
      JoinLacks(pieces[1..], sep, c);
    }
  }

  /**
   * `s.replacingOccurrences(of: pat, with: rep)`: scans left to right and
   * replaces each non-overlapping occurrence; replaced text is not rescanned.
   */
  function ReplaceAll(s: string, pat: string, rep: string): (r: string)
    requires |pat| > 0
    ensures |rep| <= |pat| ==> |r| <= |s|
    ensures |s| > 0 && |rep| > 0 ==> |r| > 0 && (r[0] == s[0] || r[0] == rep[0])
    decreases |s|
  {
    if |s| < |pat| then s
    else if s[..|pat|] == pat then rep + ReplaceAll(s[|pat|..], pat, rep)
    else [s[0]] + ReplaceAll(s[1..], pat, rep)
  }

  /** Text in which the pattern cannot start is copied unchanged, and scanning goes on after it. */
  lemma {:induction false} ReplaceAllSkip(a: string, b: string, pat: string, rep: string)
    requires |pat| > 0 && pat[0] !in a
    ensures ReplaceAll(a + b, pat, rep) == a + ReplaceAll(b, pat, rep)
    decreases |a|
  {
    if |a| > 0 {
      var s := a + b;
      if |s| >= |pat| {
        assert s[..|pat|][0] == a[0];
        assert s[1..] == a[1..] + b;
        ReplaceAllSkip(a[1..], b, pat, rep);
        assert a + ReplaceAll(b, pat, rep) == [a[0]] + (a[1..] + ReplaceAll(b, pat, rep));
      } else {
        assert ReplaceAll(b, pat, rep) == b;
      }
    } else {
      assert a + b == b;
    }
  }

  /** A three-part concatenation regrouped to the left. */
  lemma RegroupLeft(a: string, b: string, c: string)
    ensures a + (b + c) == a + b + c
  {
  }

  /** A four-part concatenation regrouped to the right. */
  lemma RegroupRight(a: string, b: string, c: string, d: string)
    ensures a + b + c + d == a + (b + (c + d))
  {
  }

  /** An occurrence at the front becomes the replacement, and scanning resumes after it. */
  lemma ReplaceAllMatch(pat: string, b: string, rep: string)
    requires |pat| > 0
    ensures ReplaceAll(pat + b, pat, rep) == rep + ReplaceAll(b, pat, rep)
  {
    assert (pat + b)[..|pat|] == pat;
    assert (pat + b)[|pat|..] == b;
  }

  /**
   * Wherever no occurrence starts at the front, the first character is copied
   * and the scan resumes at the next one. With `ReplaceAllMatch` this covers
   * every non-empty input.
   */
  lemma ReplaceAllNoMatchHere(s: string, pat: string, rep: string)
    requires |pat| > 0 && |s| > 0 && !(|s| >= |pat| && s[..|pat|] == pat)
    ensures ReplaceAll(s, pat, rep) == [s[0]] + ReplaceAll(s[1..], pat, rep)
  {
  }

  /**
   * The pattern's first character followed by something other than its second
   * is not an occurrence: it is copied, and scanning resumes right after it.
   */
  lemma ReplaceAllMismatch(x: string, pat: string, rep: string)
    requires |pat| > 1 && (|x| > 0 ==> x[0] != pat[1])
    ensures ReplaceAll([pat[0]] + x, pat, rep) == [pat[0]] + ReplaceAll(x, pat, rep)
  {
    var s := [pat[0]] + x;
    if |s| >= |pat| {
      assert s[..|pat|][1] == x[0];
      assert s[1..] == x;
    }
  }

  /**
   * Text that starts like the pattern but differs from it in the second
   * character, and holds no other start of it, is copied unchanged.
   */
  lemma ReplaceAllNearMiss(e: string, b: string, pat: string, rep: string)
    requires |pat| > 1 && |e| > 1 && e[0] == pat[0] && e[1] != pat[1] && pat[0] !in e[1..]
    ensures ReplaceAll(e + b, pat, rep) == e + ReplaceAll(b, pat, rep)
  {
    assert e + b == [pat[0]] + (e[1..] + b);
    ReplaceAllMismatch(e[1..] + b, pat, rep);
    ReplaceAllSkip(e[1..], b, pat, rep);
    assert e == [pat[0]] + e[1..];
  }

  lemma {:induction false} ReplaceAllAbsent(s: string, pat: string, rep: string)
    requires |pat| > 0 && !Contains(s, pat)
    ensures ReplaceAll(s, pat, rep) == s
    decreases |s|
  {
    if |s| >= |pat| {
      ReplaceAllAbsent(s[1..], pat, rep);
    }
  }

  /** Replacing every occurrence of a one-character pattern leaves none behind when the replacement lacks it. */
  lemma {:induction false} ReplaceAllRemovesChar(s: string, c: char, rep: string)
    requires c !in rep
    ensures c !in ReplaceAll(s, [c], rep)
    decreases |s|
  {
    if |s| >= 1 {
      ReplaceAllRemovesChar(s[1..], c, rep);
      if s[..1] != [c] {
        assert s[0] != c;
      }
    }
  }
}
