/**
 * The SwiftUI variant's HTML-to-text cleanup: decode five entities, drop
 * tags, collapse whitespace runs, trim. An attributed string is modelled by
 * its characters only.
 */
module HtmlParser {
  import opened Text

  // ---------------------------------------------------------------------
  // Entity decoding
  // ---------------------------------------------------------------------

  /** The five entities, in the order their passes run, each with the character it stands for. */
  const Entities: seq<(string, char)> :=
    [("&nbsp;", ' '), ("&amp;", '&'), ("&lt;", '<'), ("&gt;", '>'), ("&quot;", '"')]

  /** Every entity starts with `&`, has no other `&`, and the entities differ in their second character. */
  predicate EntityShape(i: nat)
    requires i < |Entities|
  {
    |Entities[i].0| > 2 && Entities[i].0[0] == '&' && '&' !in Entities[i].0[1..]
  }

  /** The passes from the `i`-th one on, each replacing every occurrence of its entity. */
  function DecodeFrom(s: string, i: nat): (r: string)
    requires i <= |Entities|
    ensures |r| <= |s|
    decreases |Entities| - i
  {
    if i == |Entities| then s
    else DecodeFrom(ReplaceAll(s, Entities[i].0, [Entities[i].1]), i + 1)
  }

  /** All five passes, `&nbsp;` first and `&quot;` last. */
  function DecodeEntities(s: string): (r: string)
    ensures |r| <= |s|
  {
    DecodeFrom(s, 0)
  }

  /** Text in which none of the five entities appears. */
  predicate NoEntities(s: string) {
    forall i :: 0 <= i < |Entities| ==> !Contains(s, Entities[i].0)
  }

  lemma {:induction false} DecodeFromAbsent(s: string, i: nat)
    requires i <= |Entities| && NoEntities(s)
    ensures DecodeFrom(s, i) == s
    decreases |Entities| - i
  {
    if i < |Entities| {
      ReplaceAllAbsent(s, Entities[i].0, [Entities[i].1]);
      DecodeFromAbsent(s, i + 1);
    }
  }

  lemma DecodeEntitiesAbsent(s: string)
    requires NoEntities(s)
    ensures DecodeEntities(s) == s
  {
    DecodeFromAbsent(s, 0);
  }

  /** Text without `&` is copied through every pass. */
  lemma {:induction false} DecodeFromSkip(a: string, b: string, i: nat)
    requires i <= |Entities| && '&' !in a
    ensures DecodeFrom(a + b, i) == a + DecodeFrom(b, i)
    decreases |Entities| - i
  {
    if i < |Entities| {
      var (pat, c) := Entities[i];
      EntitiesShape();
      assert EntityShape(i);
      ReplaceAllSkip(a, b, pat, [c]);
      DecodeFromSkip(a, ReplaceAll(b, pat, [c]), i + 1);
    }
  }

  lemma EntitiesShape()
    ensures forall i :: 0 <= i < |Entities| ==> EntityShape(i)
    ensures forall i, j :: 0 <= i < j < |Entities| ==> Entities[i].0[1] != Entities[j].0[1]
  {
    assert EntityShape(0) && EntityShape(1) && EntityShape(2) && EntityShape(3) && EntityShape(4);
  }

  /** An entity is copied unchanged by the pass of any other entity. */
  lemma PassSkipsOtherEntity(j: nat, i: nat, b: string)
    requires i < |Entities| && j < |Entities| && i != j
    ensures ReplaceAll(Entities[j].0 + b, Entities[i].0, [Entities[i].1])
      == Entities[j].0 + ReplaceAll(b, Entities[i].0, [Entities[i].1])
  {
    EntitiesShape();
    assert EntityShape(i) && EntityShape(j);
    ReplaceAllNearMiss(Entities[j].0, b, Entities[i].0, [Entities[i].1]);
  }

  /** From pass `i` on, an entity at the front whose pass has not run yet becomes its character. */
  lemma {:induction false} EntityDecodedFrom(j: nat, b: string, i: nat)
    requires i <= j < |Entities| && j != 1
    ensures DecodeFrom(Entities[j].0 + b, i) == [Entities[j].1] + DecodeFrom(b, i)
    decreases j - i
  {
    var (e, c) := Entities[j];
    if i < j {
      PassSkipsOtherEntity(j, i, b);
      EntityDecodedFrom(j, ReplaceAll(b, Entities[i].0, [Entities[i].1]), i + 1);
    } else {
      ReplaceAllMatch(e, b, [c]);
      DecodeFromSkip([c], ReplaceAll(b, e, [c]), i + 1);
    }
  }

  /**
   * `&nbsp;`, `&lt;`, `&gt;` and `&quot;` each become their character: the
   * text before the entity is kept and decoding goes on after it.
   */
  lemma DecodeEntity(a: string, j: nat, b: string)
    requires j < |Entities| && j != 1 && '&' !in a
    ensures DecodeEntities(a + Entities[j].0 + b) == a + [Entities[j].1] + DecodeEntities(b)
  {
    var e := Entities[j].0;
    assert a + e + b == a + (e + b);
    DecodeFromSkip(a, e + b, 0);
    EntityDecodedFrom(j, b, 0);
    assert a + ([Entities[j].1] + DecodeFrom(b, 0)) == a + [Entities[j].1] + DecodeEntities(b);
  }

  /** After the `&amp;` pass, an `&` that no `lt;`, `gt;` or `quot;` can follow is left alone. */
  lemma {:induction false} AmpersandKeptFrom(x: string, i: nat)
    requires 2 <= i <= |Entities|
    requires |x| > 0 ==> x[0] != 'l' && x[0] != 'g' && x[0] != 'q'
    ensures DecodeFrom("&" + x, i) == "&" + DecodeFrom(x, i)
    decreases |Entities| - i
  {
    if i < |Entities| {
      var (pat, c) := Entities[i];
      ReplaceAllMismatch(x, pat, [c]);
      AmpersandKeptFrom(ReplaceAll(x, pat, [c]), i + 1);
    }
  }

  /**
   * An `&` that starts no entity, because the character after it is none of
   * the entities' second letters, survives every pass from `i` on.
   */
  lemma {:induction false} LoneAmpersandFrom(x: string, i: nat)
    requires i <= |Entities|
    requires |x| > 0 ==> x[0] !in "nalgq"
    ensures DecodeFrom("&" + x, i) == "&" + DecodeFrom(x, i)
    decreases |Entities| - i
  {
    if i < |Entities| {
      var (pat, c) := Entities[i];
      assert pat[0] == '&' && pat[1] in "nalgq" && c !in "nalgq";
      ReplaceAllMismatch(x, pat, [c]);
      LoneAmpersandFrom(ReplaceAll(x, pat, [c]), i + 1);
    }
  }

  /** A lone `&`, as in "Tom & Jerry", is kept, and decoding goes on after it. */
  lemma DecodeLoneAmpersand(a: string, x: string)
    requires '&' !in a
    requires |x| > 0 ==> x[0] !in "nalgq"
    ensures DecodeEntities(a + "&" + x) == a + "&" + DecodeEntities(x)
  {
    RegroupLeft(a, "&", x);
    DecodeFromSkip(a, "&" + x, 0);
    LoneAmpersandFrom(x, 0);
    RegroupLeft(a, "&", DecodeFrom(x, 0));
  }

  /**
   * `&amp;` becomes `&` when what follows does not start with `l`, `g` or `q`.
   * Otherwise the `&` it leaves can join the following text into another
   * entity, because `&amp;` is replaced before `&lt;`, `&gt;` and `&quot;`.
   */
  lemma DecodeAmpersand(a: string, b: string)
    requires '&' !in a
    requires |b| > 0 ==> b[0] != 'l' && b[0] != 'g' && b[0] != 'q'
    ensures DecodeEntities(a + "&amp;" + b) == a + "&" + DecodeEntities(b)
  {
    var amp := Entities[1].0;
    assert a + amp + b == a + (amp + b);
    DecodeFromSkip(a, amp + b, 0);
    PassSkipsOtherEntity(1, 0, b);
    var b0 := ReplaceAll(b, Entities[0].0, " ");
    assert DecodeFrom(amp + b, 0) == DecodeFrom(amp + b0, 1);
    ReplaceAllMatch(amp, b0, "&");
    var b1 := ReplaceAll(b0, amp, "&");
    assert DecodeFrom(amp + b0, 1) == DecodeFrom("&" + b1, 2);
    assert DecodeFrom(b, 0) == DecodeFrom(b1, 2);
    AmpersandKeptFrom(b1, 2);
  }

  /** Entity `j` is `&` followed by a tail without `&`. */
  lemma EntitySplit(j: nat)
    requires j < |Entities|
    ensures Entities[j].0 == "&" + Entities[j].0[1..] && '&' !in Entities[j].0[1..]
  {
    EntitiesShape();
    assert EntityShape(j);
  }

  /** The `&nbsp;` pass copies `&amp;` and the rest of another entity, then goes on after them. */
  lemma EscapedNbspPass(j: nat, b: string)
    requires 2 <= j < |Entities|
    ensures ReplaceAll(Entities[1].0 + (Entities[j].0[1..] + b), Entities[0].0, " ")
      == Entities[1].0 + (Entities[j].0[1..] + ReplaceAll(b, Entities[0].0, " "))
  {
    var tail := Entities[j].0[1..];
    EntitySplit(j);
    PassSkipsOtherEntity(1, 0, tail + b);
    ReplaceAllSkip(tail, b, Entities[0].0, " ");
  }

  /** The `&amp;` pass turns `&amp;` followed by the rest of another entity into that entity. */
  lemma EscapedAmpPass(j: nat, b: string)
    requires 2 <= j < |Entities|
    ensures ReplaceAll(Entities[1].0 + (Entities[j].0[1..] + b), Entities[1].0, "&")
      == Entities[j].0 + ReplaceAll(b, Entities[1].0, "&")
  {
    var (amp, e) := (Entities[1].0, Entities[j].0);
    var tail := e[1..];
    EntitySplit(j);
    ReplaceAllMatch(amp, tail + b, "&");
    ReplaceAllSkip(tail, b, amp, "&");
    var rest := ReplaceAll(b, amp, "&");
    assert "&" + (tail + rest) == ("&" + tail) + rest;
  }

  /** The first two passes turn `&amp;` followed by the rest of another entity into that entity. */
  lemma EscapedEntityUnescaped(j: nat, b: string)
    requires 2 <= j < |Entities|
    ensures DecodeFrom(Entities[1].0 + (Entities[j].0[1..] + b), 0)
      == DecodeFrom(Entities[j].0 + ReplaceAll(ReplaceAll(b, Entities[0].0, " "), Entities[1].0, "&"), 2)
  {
    EscapedNbspPass(j, b);
    EscapedAmpPass(j, ReplaceAll(b, Entities[0].0, " "));
  }

  /**
   * Because `&amp;` is replaced before `&lt;`, `&gt;` and `&quot;`, an escaped
   * entity such as `&amp;lt;` is decoded twice and ends as its character.
   */
  lemma AmpersandDecodedTwice(a: string, j: nat, b: string)
    requires 2 <= j < |Entities| && '&' !in a
    ensures DecodeEntities(a + Entities[1].0 + Entities[j].0[1..] + b) == a + [Entities[j].1] + DecodeEntities(b)
  {
    var (amp, tail) := (Entities[1].0, Entities[j].0[1..]);
    RegroupRight(a, amp, tail, b);
    DecodeFromSkip(a, amp + (tail + b), 0);
    EscapedEntityDecoded(j, b);
    RegroupLeft(a, [Entities[j].1], DecodeFrom(b, 0));
  }

  /** All five passes turn `&amp;` followed by the rest of another entity into that entity's character. */
  lemma EscapedEntityDecoded(j: nat, b: string)
    requires 2 <= j < |Entities|
    ensures DecodeFrom(Entities[1].0 + (Entities[j].0[1..] + b), 0) == [Entities[j].1] + DecodeFrom(b, 0)
  {
    var b1 := ReplaceAll(ReplaceAll(b, Entities[0].0, " "), Entities[1].0, "&");
    EscapedEntityUnescaped(j, b);
    EntityDecodedFrom(j, b1, 2);
    assert DecodeFrom(b, 0) == DecodeFrom(b1, 2);
  }

  // ---------------------------------------------------------------------
  // Tag removal: the pattern <[^>]+> replaced by nothing
  // ---------------------------------------------------------------------

  /**
   * A match of `<[^>]+>` in `r`: a `<` at `i`, at least one character, and a
   * `>` at `j` with no `>` between them.
   */
  predicate TagAt(r: string, i: int, j: int) {
    0 <= i && i + 1 < j < |r| && r[i] == '<' && r[j] == '>' && '>' !in r[i + 1..j]
  }

  /** Text in which the tag pattern finds nothing. */
  predicate NoTags(r: string) {
    forall i, j | 0 <= i < j < |r| :: !TagAt(r, i, j)
  }

  /**
   * A shape that rules tags out: each `<` is directly followed by `>`, or no
   * `>` comes after it at all. Unlike `NoTags` it survives cutting and gluing.
   */
  predicate TagFree(r: string) {
    forall i, j :: 0 <= i < |r| && j == i + 1 && r[i] == '<' ==> (j < |r| && r[j] == '>') || '>' !in r[j..]
  }

  lemma TagFreeHasNoTags(r: string)
    requires TagFree(r)
    ensures NoTags(r)
  {
    forall i, j | 0 <= i && i + 1 < j < |r| && r[i] == '<' && r[j] == '>'
      ensures '>' in r[i + 1..j]
    {
      assert r[j] == r[i + 1..][j - i - 1];
      assert r[i + 1] == r[i + 1..j][0];
    }
  }

  lemma TagFreeCons(c: char, t: string)
    ensures TagFree([c] + t) <==> TagFree(t) && (c == '<' ==> (|t| > 0 && t[0] == '>') || '>' !in t)
  {
    var r := [c] + t;
    assert r[1..] == t;
    if TagFree(r) {
      forall i | 0 <= i < |t| && t[i] == '<'
        ensures (i + 1 < |t| && t[i + 1] == '>') || '>' !in t[i + 1..]
      {
        assert r[i + 1] == '<';
        assert r[i + 2..] == t[i + 1..];
      }
      if c == '<' {
        assert r[0] == '<';
      }
    }
    if TagFree(t) && (c == '<' ==> (|t| > 0 && t[0] == '>') || '>' !in t) {
      forall i | 0 <= i < |r| && r[i] == '<'
        ensures (i + 1 < |r| && r[i + 1] == '>') || '>' !in r[i + 1..]
      {
        if i > 0 {
          assert t[i - 1] == '<';
          assert r[i + 1..] == t[i..];
        }
      }
    }
  }

  lemma TagFreeSlice(r: string, a: nat, b: nat)
    requires TagFree(r) && a <= b <= |r|
    ensures TagFree(r[a..b])
  {
    var t := r[a..b];
    forall i | 0 <= i < |t| && t[i] == '<'
      ensures (i + 1 < |t| && t[i + 1] == '>') || '>' !in t[i + 1..]
    {
      assert r[a + i] == '<';
      if '>' !in r[a + i + 1..] {
        assert forall k :: i + 1 <= k < |t| ==> t[k] == r[a + i + 1..][k - i - 1];
      }
    }
  }

  /**
   * The tag pass. At a `<` the leftmost match is tried: it exists when the
   * next character is not `>` and some `>` follows, and it ends at the first `>`.
   */
  function StripTags(s: string): (r: string)
    ensures |r| <= |s|
    ensures forall k :: 0 <= k < |r| ==> r[k] in s
    ensures |s| > 0 && s[0] != '<' ==> |r| > 0 && r[0] == s[0]
    ensures TagFree(r)
    decreases |s|
  {
    if |s| == 0 then ""
    else if s[0] == '<' && |s| >= 2 && s[1] != '>' && '>' in s[1..] then
      StripTags(s[IndexOf(s, '>') + 1..])
    else
      var t := StripTags(s[1..]);
      TagFreeCons(s[0], t);
      [s[0]] + t
  }

  lemma {:induction false} StripTagsNoAngle(s: string)
    requires '<' !in s
    ensures StripTags(s) == s
    decreases |s|
  {
    if |s| > 0 {
      StripTagsNoAngle(s[1..]);
    }
  }

  /** Text before the next `<` is kept as it is. */
  lemma {:induction false} StripTagsKeepsText(a: string, b: string)
    requires '<' !in a
    ensures StripTags(a + b) == a + StripTags(b)
    decreases |a|
  {
    if |a| > 0 {
      var (c, rest) := (a[0], a[1..]);
      assert a == [c] + rest;
      RegroupLeft([c], rest, b);
      StripTagsCons(c, rest + b);
      StripTagsKeepsText(rest, b);
      RegroupLeft([c], rest, StripTags(b));
    } else {
      assert a + b == b;
    }
  }

  lemma StripTagsCons(c: char, t: string)
    requires c != '<'
    ensures StripTags([c] + t) == [c] + StripTags(t)
  {
    assert ([c] + t)[1..] == t;
  }

  /** A tag, from `<` to the first `>` with at least one character between, is dropped. */
  lemma StripTagsDropsTag(t: string, b: string)
    requires |t| > 0 && '>' !in t
    ensures StripTags("<" + t + ">" + b) == StripTags(b)
  {
    var s := "<" + t + ">" + b;
    assert s[1] == t[0] && s[|t| + 1] == '>';
    assert s[1..][|t|] == '>';
    assert s[..|t| + 1] == "<" + t;
    IndexOfUnique(s, '>', |t| + 1);
    assert s[|t| + 2..] == b;
  }

  /** The text between tags is preserved: removing a tag leaves what precedes and follows it. */
  lemma StripTagsRemovesTag(a: string, t: string, b: string)
    requires '<' !in a && |t| > 0 && '>' !in t
    ensures StripTags(a + "<" + t + ">" + b) == a + StripTags(b)
  {
    assert a + "<" + t + ">" + b == a + ("<" + t + ">" + b);
    StripTagsKeepsText(a, "<" + t + ">" + b);
    StripTagsDropsTag(t, b);
  }

  /** A `<` that no `>` follows is not a tag, and is kept. */
  lemma StripTagsKeepsUnclosed(b: string)
    requires '>' !in b
    ensures StripTags("<" + b) == "<" + StripTags(b)
  {
    var s := "<" + b;
    assert s[1..] == b;
  }

  // ---------------------------------------------------------------------
  // Whitespace: \s+ replaced by one space, then trimmed
  // ---------------------------------------------------------------------

  /** Unicode general category Zs (space separators). */
  predicate IsSpaceSeparator(c: char) {
    c == ' ' || c == '\U{00A0}' || c == '\U{1680}' || '\U{2000}' <= c <= '\U{200A}'
    || c == '\U{202F}' || c == '\U{205F}' || c == '\U{3000}'
  }

  /**
   * The regular-expression class `\s`, which the ICU engine behind
   * `NSRegularExpression` implements as the Unicode White_Space property: tab,
   * U+000A to U+000D, U+0085, category Zs, U+2028 and U+2029.
   */
  predicate IsPatternSpace(c: char) {
    c == '\t' || '\U{000A}' <= c <= '\U{000D}' || c == '\U{0085}'
    || IsSpaceSeparator(c) || c == '\U{2028}' || c == '\U{2029}'
  }

  /** `CharacterSet.whitespacesAndNewlines`: category Zs, tab, U+000A to U+000D, U+0085, U+2028, U+2029. */
  predicate IsTrimmable(c: char) {
    IsSpaceSeparator(c) || c == '\t' || '\U{000A}' <= c <= '\U{000D}'
    || c == '\U{0085}' || c == '\U{2028}' || c == '\U{2029}'
  }

  /** The two sets coincide: what the pattern collapses is exactly what trimming removes. */
  lemma PatternSpaceIsTrimmable(c: char)
    ensures IsPatternSpace(c) <==> IsTrimmable(c)
  {
  }

  /** Drops the run of pattern whitespace at the front of `s`. */
  function SkipSpaces(s: string): (r: string)
    ensures |r| <= |s| && r == s[|s| - |r|..]
    ensures |s| > 0 && IsPatternSpace(s[0]) ==> |r| < |s|
    ensures |r| > 0 ==> !IsPatternSpace(r[0])
    decreases |s|
  {
    if |s| > 0 && IsPatternSpace(s[0]) then SkipSpaces(s[1..]) else s
  }

  /** No whitespace other than single plain spaces. */
  predicate SpacesCollapsed(r: string) {
    && (forall i :: 0 <= i < |r| && IsPatternSpace(r[i]) ==> r[i] == ' ')
    && (forall i, j :: 0 <= i < |r| && 0 <= j < |r| && j == i + 1 ==> !IsPatternSpace(r[i]) || !IsPatternSpace(r[j]))
  }

  lemma SpacesCollapsedSlice(r: string, a: nat, b: nat)
    requires SpacesCollapsed(r) && a <= b <= |r|
    ensures SpacesCollapsed(r[a..b])
  {
    var t := r[a..b];
    forall i | 0 <= i < |t| && IsPatternSpace(t[i])
      ensures t[i] == ' ' && (i + 1 < |t| ==> !IsPatternSpace(t[i + 1]))
    {
      assert t[i] == r[a + i];
    }
  }

  /** `replacingOccurrences(of: "\\s+", with: " ", options: .regularExpression)`. */
  function CollapseSpaces(s: string): (r: string)
    ensures |r| <= |s|
    ensures SpacesCollapsed(r)
    ensures forall k :: 0 <= k < |r| ==> r[k] == ' ' || r[k] in s
    ensures |s| > 0 && !IsPatternSpace(s[0]) ==> |r| > 0 && r[0] == s[0]
    decreases |s|
  {
    if |s| == 0 then ""
    else if IsPatternSpace(s[0]) then
      var t := CollapseSpaces(SkipSpaces(s));
      SpacesCollapsedCons(' ', t);
      " " + t
    else
      var t := CollapseSpaces(s[1..]);
      SpacesCollapsedCons(s[0], t);
      [s[0]] + t
  }

  /** A plain space before text that does not start with whitespace, or any other character, keeps runs collapsed. */
  lemma SpacesCollapsedCons(c: char, t: string)
    requires SpacesCollapsed(t) && (c == ' ' || !IsPatternSpace(c))
    requires c == ' ' && |t| > 0 ==> !IsPatternSpace(t[0])
    ensures SpacesCollapsed([c] + t)
  {
    var r := [c] + t;
    forall i | 0 <= i < |r| && IsPatternSpace(r[i])
      ensures r[i] == ' ' && (i + 1 < |r| ==> !IsPatternSpace(r[i + 1]))
    {
      if i > 0 {
        assert r[i] == t[i - 1];
      }
      if i + 1 < |r| {
        assert r[i + 1] == t[i];
      }
    }
  }

  lemma {:induction false} CollapseSpacesKeepsTagFree(s: string)
    requires TagFree(s)
    ensures TagFree(CollapseSpaces(s))
    decreases |s|
  {
    if |s| > 0 {
      if IsPatternSpace(s[0]) {
        var rest := SkipSpaces(s);
        TagFreeSlice(s, |s| - |rest|, |s|);
        assert s[|s| - |rest|..|s|] == rest;
        CollapseSpacesKeepsTagFree(rest);
        TagFreeCons(' ', CollapseSpaces(rest));
      } else {
        assert [s[0]] + s[1..] == s;
        TagFreeCons(s[0], s[1..]);
        CollapseSpacesKeepsTagFree(s[1..]);
        TagFreeCons(s[0], CollapseSpaces(s[1..]));
      }
    }
  }

  lemma {:induction false} CollapseSpacesIdentity(s: string)
    requires SpacesCollapsed(s)
    ensures CollapseSpaces(s) == s
    decreases |s|
  {
    if |s| > 0 {
      var t := s[1..];
      assert SpacesCollapsed(t) by {
        SpacesCollapsedSlice(s, 1, |s|);
      }
      CollapseSpacesIdentity(t);
      if IsPatternSpace(s[0]) {
        assert s == " " + t && (|t| > 0 ==> !IsPatternSpace(t[0])) by {
          assert |t| > 0 ==> t[0] == s[1];
        }
        CollapseSpacesRun(" ", t);
      } else {
        assert s == [s[0]] + t;
        CollapseSpacesCons(s[0], t);
      }
    }
  }

  /** A run of pattern whitespace is skipped up to the first other character. */
  lemma {:induction false} SkipSpacesRun(w: string, b: string)
    requires forall k :: 0 <= k < |w| ==> IsPatternSpace(w[k])
    requires |b| > 0 ==> !IsPatternSpace(b[0])
    ensures SkipSpaces(w + b) == b
    decreases |w|
  {
    if |w| > 0 {
      assert (w + b)[1..] == w[1..] + b;
      SkipSpacesRun(w[1..], b);
    } else {
      assert w + b == b;
    }
  }

  lemma CollapseSpacesCons(c: char, t: string)
    requires !IsPatternSpace(c)
    ensures CollapseSpaces([c] + t) == [c] + CollapseSpaces(t)
  {
    assert ([c] + t)[1..] == t;
  }

  /** No character of `a` is pattern whitespace. */
  predicate NoPatternSpace(a: string) {
    |a| == 0 || (!IsPatternSpace(a[0]) && NoPatternSpace(a[1..]))
  }

  /** Text without pattern whitespace is kept as it is. */
  lemma {:induction false} CollapseSpacesKeepsWord(a: string, b: string)
    requires NoPatternSpace(a)
    ensures CollapseSpaces(a + b) == a + CollapseSpaces(b)
    decreases |a|
  {
    if |a| > 0 {
      var (c, rest) := (a[0], a[1..]);
      assert a == [c] + rest;
      RegroupLeft([c], rest, b);
      CollapseSpacesCons(c, rest + b);
      CollapseSpacesKeepsWord(rest, b);
      RegroupLeft([c], rest, CollapseSpaces(b));
    } else {
      assert a + b == b;
    }
  }

  /** A whole run of pattern whitespace becomes one plain space. */
  lemma CollapseSpacesRun(w: string, b: string)
    requires |w| > 0 && forall k :: 0 <= k < |w| ==> IsPatternSpace(w[k])
    requires |b| > 0 ==> !IsPatternSpace(b[0])
    ensures CollapseSpaces(w + b) == " " + CollapseSpaces(b)
  {
    assert (w + b)[0] == w[0];
    SkipSpacesRun(w, b);
  }

  /** Drops trimmable characters from the front. */
  function TrimStart(s: string): (r: string)
    ensures |r| <= |s| && r == s[|s| - |r|..]
    ensures forall k :: 0 <= k < |s| - |r| ==> IsTrimmable(s[k])
    ensures |r| > 0 ==> !IsTrimmable(r[0])
    decreases |s|
  {
    if |s| > 0 && IsTrimmable(s[0]) then TrimStart(s[1..]) else s
  }

  /** Drops trimmable characters from the back. */
  function TrimEnd(s: string): (r: string)
    ensures |r| <= |s| && r == s[..|r|]
    ensures forall k :: |r| <= k < |s| ==> IsTrimmable(s[k])
    ensures |r| > 0 ==> !IsTrimmable(r[|r| - 1])
    decreases |s|
  {
    if |s| > 0 && IsTrimmable(s[|s| - 1]) then TrimEnd(s[..|s| - 1]) else s
  }

  /** No trimmable character at either end. */
  predicate Trimmed(r: string) {
    |r| == 0 || (!IsTrimmable(r[0]) && !IsTrimmable(r[|r| - 1]))
  }

  /** `trimmingCharacters(in: .whitespacesAndNewlines)`: the middle slice left when trimmable ends are removed. */
  function Trim(s: string): (r: string)
    ensures Trimmed(r)
    ensures |r| <= |s|
  {
    var front := TrimStart(s);
    var r := TrimEnd(front);
    assert |r| > 0 ==> r[0] == front[0];
    r
  }

  /** What `Trim` leaves is a slice of its input, so slice-closed shapes survive it. */
  lemma TrimKeepsShape(s: string)
    ensures SpacesCollapsed(s) ==> SpacesCollapsed(Trim(s))
    ensures TagFree(s) ==> TagFree(Trim(s))
  {
    var front := TrimStart(s);
    var r := TrimEnd(front);
    assert Trim(s) == r;
    assert front == s[|s| - |front|..|s|] && r == front[0..|r|];
    if SpacesCollapsed(s) {
      assert SpacesCollapsed(r) by {
        SpacesCollapsedSlice(s, |s| - |front|, |s|);
        SpacesCollapsedSlice(front, 0, |r|);
      }
    }
    if TagFree(s) {
      assert TagFree(r) by {
        TagFreeSlice(s, |s| - |front|, |s|);
        TagFreeSlice(front, 0, |r|);
      }
    }
  }

  lemma TrimIdentity(s: string)
    requires Trimmed(s)
    ensures Trim(s) == s
  {
    assert TrimStart(s) == s;
  }

  lemma {:induction false} TrimStartDropsRun(x: string, w: string)
    requires forall k :: 0 <= k < |x| ==> IsTrimmable(x[k])
    requires |w| > 0 ==> !IsTrimmable(w[0])
    ensures TrimStart(x + w) == w
    decreases |x|
  {
    if |x| > 0 {
      assert (x + w)[1..] == x[1..] + w;
      TrimStartDropsRun(x[1..], w);
    } else {
      assert x + w == w;
    }
  }

  lemma {:induction false} TrimEndDropsRun(w: string, y: string)
    requires forall k :: 0 <= k < |y| ==> IsTrimmable(y[k])
    requires |w| > 0 ==> !IsTrimmable(w[|w| - 1])
    ensures TrimEnd(w + y) == w
    decreases |y|
  {
    if |y| > 0 {
      assert (w + y)[..|w + y| - 1] == w + y[..|y| - 1];
      TrimEndDropsRun(w, y[..|y| - 1]);
    } else {
      assert w + y == w;
    }
  }

  /** Trimming removes exactly the trimmable runs at both ends. */
  lemma TrimDropsEnds(x: string, w: string, y: string)
    requires forall k :: 0 <= k < |x| ==> IsTrimmable(x[k])
    requires forall k :: 0 <= k < |y| ==> IsTrimmable(y[k])
    requires Trimmed(w)
    ensures Trim(x + w + y) == w
  {
    if |w| > 0 {
      assert x + w + y == x + (w + y);
      TrimStartDropsRun(x, w + y);
      TrimEndDropsRun(w, y);
    } else {
      assert x + w + y == x + y;
      TrimStartDropsRun(x + y, "");
      assert x + y + "" == x + y by {
        assert forall k :: 0 <= k < |x + y| ==> IsTrimmable((x + y)[k]);
      }
    }
  }

  // ---------------------------------------------------------------------
  // The whole conversion
  // ---------------------------------------------------------------------

  /** `AttributedString`, as far as its characters go. */
  datatype AttributedText = AttributedText(characters: string)

  /** `htmlToAttributedString()`. */
  function HtmlToAttributedString(s: string): (r: AttributedText)
    ensures |r.characters| <= |s|
    ensures Trimmed(r.characters)
    ensures SpacesCollapsed(r.characters)
    ensures NoTags(r.characters)
  {
    var stripped := StripTags(DecodeEntities(s));
    var collapsed := CollapseSpaces(stripped);
    var text := Trim(collapsed);
    CollapseSpacesKeepsTagFree(stripped);
    TrimKeepsShape(collapsed);
    TagFreeHasNoTags(text);
    AttributedText(text)
  }

  /** `htmlToPlainText()`: the characters of the attributed result. */
  function HtmlToPlainText(s: string): (r: string)
    ensures |r| <= |s|
    ensures Trimmed(r)
    ensures SpacesCollapsed(r)
    ensures NoTags(r)
  {
    HtmlToAttributedString(s).characters
  }

  /** Text with no entities, no `<`, single plain spaces and no trimmable ends passes through unchanged. */
  lemma PlainTextUnchanged(s: string)
    requires NoEntities(s) && '<' !in s && SpacesCollapsed(s) && Trimmed(s)
    ensures HtmlToPlainText(s) == s
  {
    DecodeEntitiesAbsent(s);
    StripTagsNoAngle(s);
    CollapseSpacesIdentity(s);
    TrimIdentity(s);
  }

  /** Text with no `&` holds no entity and is not changed by decoding. */
  lemma DecodeEntitiesNoAmpersand(s: string)
    requires '&' !in s
    ensures DecodeEntities(s) == s
  {
    DecodeFromSkip(s, "", 0);
    assert s + "" == s;
    assert |DecodeFrom("", 0)| == 0;
  }

  /** Both tags around an element's text are dropped, and the text is kept. */
  lemma StripTagsOfElement(t: string, w: string, u: string)
    requires |t| > 0 && '>' !in t && |u| > 0 && '>' !in u && '<' !in w
    ensures StripTags("<" + t + ">" + w + "<" + u + ">") == w
  {
    var close := "<" + u + ">";
    var rest := w + close;
    assert "<" + t + ">" + w + "<" + u + ">" == "<" + t + ">" + rest;
    assert StripTags("<" + t + ">" + rest) == StripTags(rest) by {
      StripTagsDropsTag(t, rest);
    }
    assert StripTags(rest) == w + StripTags(close) by {
      StripTagsKeepsText(w, close);
    }
    assert StripTags(close) == "" by {
      assert close == "<" + u + ">" + "";
      StripTagsDropsTag(u, "");
    }
    assert w + "" == w;
  }

  /**
   * The text of an element survives: `<t>w<u>` becomes `w` when `w` is clean
   * text and the tags hold no `&` (tag text is decoded before tags are dropped).
   */
  lemma ElementTextKept(t: string, w: string, u: string)
    requires |t| > 0 && '>' !in t && '&' !in t
    requires |u| > 0 && '>' !in u && '&' !in u
    requires '&' !in w && '<' !in w && SpacesCollapsed(w) && Trimmed(w)
    ensures HtmlToPlainText("<" + t + ">" + w + "<" + u + ">") == w
  {
    var s := "<" + t + ">" + w + "<" + u + ">";
    assert '&' !in s;
    DecodeEntitiesNoAmpersand(s);
    StripTagsOfElement(t, w, u);
    CollapseSpacesIdentity(w);
    TrimIdentity(w);
  }
}
