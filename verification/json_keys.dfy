/**
 * JSON key naming: Swift's camelCase property names, the API's snake_case keys, and
 * how `JSONDecoder` matches the keys of an object against a type's coding keys.
 */
module JsonKeys {
  import opened Wrappers

  predicate IsUpper(c: char) {
    'A' <= c <= 'Z'
  }

  predicate IsLower(c: char) {
    'a' <= c <= 'z'
  }

  function ToLower(c: char): (r: char)
    requires IsUpper(c)
    ensures IsLower(r)
  {
    (c as int + 32) as char
  }

  function ToUpper(c: char): (r: char)
    requires IsLower(c)
    ensures IsUpper(r)
  {
    (c as int - 32) as char
  }

  lemma CaseRoundTrip(c: char)
    requires IsUpper(c)
    ensures ToUpper(ToLower(c)) == c
  {
  }

  /** camelCase to snake_case: each capital becomes an underscore and its lower-case letter. */
  function SnakeCase(s: string): string {
    if |s| == 0 then ""
    else (if IsUpper(s[0]) then ['_', ToLower(s[0])] else [s[0]]) + SnakeCase(s[1..])
  }

  predicate NoUpper(s: string) {
    forall k :: 0 <= k < |s| ==> !IsUpper(s[k])
  }

  lemma {:induction false} SnakeCaseNoUpper(s: string)
    requires NoUpper(s)
    ensures SnakeCase(s) == s
    decreases |s|
  {
    if |s| > 0 {
      SnakeCaseNoUpper(s[1..]);
    }
  }

  lemma {:induction false} SnakeCaseAppend(a: string, b: string)
    ensures SnakeCase(a + b) == SnakeCase(a) + SnakeCase(b)
    decreases |a|
  {
    if |a| > 0 {
      assert (a + b)[1..] == a[1..] + b;
      SnakeCaseAppend(a[1..], b);
    } else {
      assert a + b == b;
    }
  }

  /** The snake_case form of a capitalised word: an underscore, then the word in lower case. */
  lemma SnakeCaseWord(head: char, rest: string)
    requires IsUpper(head) && NoUpper(rest)
    ensures SnakeCase([head] + rest) == ['_', ToLower(head)] + rest
  {
    assert ([head] + rest)[1..] == rest;
    SnakeCaseNoUpper(rest);
  }

  /** camelCase made of a lower-case word followed by capitalised words. */
  lemma SnakeCaseOfWords(first: string, words: seq<(char, string)>)
    requires NoUpper(first)
    requires forall k :: 0 <= k < |words| ==> IsUpper(words[k].0) && NoUpper(words[k].1)
    ensures SnakeCase(first + Camel(words)) == first + Snake(words)
    decreases |words|
  {
    SnakeCaseAppend(first, Camel(words));
    SnakeCaseNoUpper(first);
    SnakeCaseOfCamel(words);
  }

  function Camel(words: seq<(char, string)>): string {
    if |words| == 0 then "" else [words[0].0] + words[0].1 + Camel(words[1..])
  }

  function Snake(words: seq<(char, string)>): string
    requires forall k :: 0 <= k < |words| ==> IsUpper(words[k].0)
  {
    if |words| == 0 then "" else ['_', ToLower(words[0].0)] + words[0].1 + Snake(words[1..])
  }

  lemma {:induction false} SnakeCaseOfCamel(words: seq<(char, string)>)
    requires forall k :: 0 <= k < |words| ==> IsUpper(words[k].0) && NoUpper(words[k].1)
    ensures SnakeCase(Camel(words)) == Snake(words)
    decreases |words|
  {
    if |words| > 0 {
      var w := [words[0].0] + words[0].1;
      assert Camel(words) == w + Camel(words[1..]);
      SnakeCaseAppend(w, Camel(words[1..]));
      SnakeCaseWord(words[0].0, words[0].1);
      SnakeCaseOfCamel(words[1..]);
    }
  }

  lemma {:induction false} CamelAppend(u: seq<(char, string)>, v: seq<(char, string)>)
    ensures Camel(u + v) == Camel(u) + Camel(v)
    decreases |u|
  {
    if |u| > 0 {
      assert (u + v)[1..] == u[1..] + v;
      CamelAppend(u[1..], v);
    } else {
      assert u + v == v;
    }
  }

  /**
   * Every underscore-free name that does not start with a capital is a
   * lower-case-free first word followed by capitalised words.
   */
  lemma {:induction false} Humps(s: string) returns (first: string, words: seq<(char, string)>)
    requires |s| > 0 && !IsUpper(s[0]) && '_' !in s
    ensures s == first + Camel(words)
    ensures |first| > 0 && NoUpper(first) && '_' !in first
    ensures forall k :: 0 <= k < |words| ==> IsUpper(words[k].0) && NoUpper(words[k].1) && '_' !in words[k].1
    decreases |s|
  {
    if |s| == 1 {
      first, words := s, [];
      assert s == first + Camel(words);
    } else {
      var init, x := s[..|s| - 1], s[|s| - 1];
      assert s == init + [x];
      first, words := Humps(init);
      if IsUpper(x) {
        CamelAppend(words, [(x, "")]);
        words := words + [(x, "")];
      } else if |words| == 0 {
        first := first + [x];
      } else {
        var pre := words[..|words| - 1];
        var (c, rest) := words[|words| - 1];
        assert words == pre + [(c, rest)];
        CamelAppend(pre, [(c, rest)]);
        CamelAppend(pre, [(c, rest + [x])]);
        words := pre + [(c, rest + [x])];
      }
    }
  }

  // ---------------------------------------------------------------------
  // Foundation's `convertFromSnakeCase`
  // ---------------------------------------------------------------------

  /** Case mapping of one character, for the ASCII letters; every other character is kept. */
  function LowerChar(c: char): char {
    if IsUpper(c) then ToLower(c) else c
  }

  function UpperChar(c: char): char {
    if IsLower(c) then ToUpper(c) else c
  }

  /** `lowercased()`. */
  function Lowercased(s: string): (r: string)
    ensures |r| == |s| && NoUpper(r)
    ensures NoUpper(s) ==> r == s
    ensures '_' !in s ==> '_' !in r
    decreases |s|
  {
    if |s| == 0 then "" else [LowerChar(s[0])] + Lowercased(s[1..])
  }

  /** `capitalized` of a word without spaces: its first character in upper case, the rest in lower case. */
  function Capitalized(w: string): (r: string)
    ensures |r| == |w|
    ensures '_' !in w ==> '_' !in r
  {
    if |w| == 0 then "" else [UpperChar(w[0])] + Lowercased(w[1..])
  }

  /** The components after the first, each capitalised, joined with nothing. */
  function CapitalizeAll(ws: seq<string>): (r: string)
    ensures (forall k :: 0 <= k < |ws| ==> '_' !in ws[k]) ==> '_' !in r
    decreases |ws|
  {
    if |ws| == 0 then "" else Capitalized(ws[0]) + CapitalizeAll(ws[1..])
  }

  /** The length of the underscore-free run at the front of `s`. */
  function RunLength(s: string): (n: nat)
    ensures n <= |s| && '_' !in s[..n] && (n < |s| ==> s[n] == '_')
    ensures |s| > 0 && s[0] != '_' ==> n > 0
    decreases |s|
  {
    if |s| == 0 || s[0] == '_' then 0
    else
      var n := RunLength(s[1..]);
      assert s[..n + 1] == [s[0]] + s[1..][..n];
      1 + n
  }

  /** `split(separator: "_")`: the non-empty runs between underscores, in order. */
  function Words(s: string): (r: seq<string>)
    ensures forall k :: 0 <= k < |r| ==> |r[k]| > 0 && '_' !in r[k]
    ensures |s| > 0 && s[0] != '_' ==> |r| > 0
    decreases |s|
  {
    if |s| == 0 then []
    else if s[0] == '_' then Words(s[1..])
    else
      var n := RunLength(s);
      [s[..n]] + Words(s[n..])
  }

  /** The number of underscores `s` starts with. */
  function LeadingUnderscores(s: string): (n: nat)
    ensures n <= |s| && (forall k :: 0 <= k < n ==> s[k] == '_') && (n < |s| ==> s[n] != '_')
    decreases |s|
  {
    if |s| == 0 || s[0] != '_' then 0 else 1 + LeadingUnderscores(s[1..])
  }

  /** The number of underscores `s` ends with. */
  function TrailingUnderscores(s: string): (n: nat)
    ensures n <= |s| && (forall k :: |s| - n <= k < |s| ==> s[k] == '_') && (n < |s| ==> s[|s| - 1 - n] != '_')
    decreases |s|
  {
    if |s| == 0 || s[|s| - 1] != '_' then 0
    else
      var n := TrailingUnderscores(s[..|s| - 1]);
      1 + n
  }

  /**
   * The part between the underscore runs: kept as it is when it is one
   * component, otherwise the first component in lower case followed by the
   * others capitalised.
   */
  function JoinedWords(core: string): string
    requires |core| > 0 && core[0] != '_'
  {
    var words := Words(core);
    if |words| == 1 then core else Lowercased(words[0]) + CapitalizeAll(words[1..])
  }

  /**
   * `JSONDecoder.KeyDecodingStrategy.convertFromSnakeCase` applied to one key:
   * a key of underscores only is kept; otherwise the leading and trailing
   * underscores are kept and the part between them is camel-cased.
   */
  function FromSnakeCase(key: string): (r: string)
    ensures LeadingUnderscores(key) <= |r| && r[..LeadingUnderscores(key)] == key[..LeadingUnderscores(key)]
    ensures TrailingUnderscores(key) <= |r| && r[|r| - TrailingUnderscores(key)..] == key[|key| - TrailingUnderscores(key)..]
  {
    var lead := LeadingUnderscores(key);
    if lead == |key| then key
    else
      var trail := TrailingUnderscores(key);
      CoreBounds(key);
      var core := key[lead..|key| - trail];
      assert core[0] == key[lead];
      SliceEnds(key[..lead], JoinedWords(core), key[|key| - trail..]);
      key[..lead] + JoinedWords(core) + key[|key| - trail..]
  }

  /** The outer parts of a three-part concatenation are its prefix and suffix of their lengths. */
  lemma SliceEnds(a: string, m: string, c: string)
    ensures (a + m + c)[..|a|] == a && (a + m + c)[|a + m + c| - |c|..] == c
  {
  }

  /** A key without underscores is one component and is kept as it is. */
  lemma FromSnakeCaseKeepsPlainKey(key: string)
    requires '_' !in key
    ensures FromSnakeCase(key) == key
  {
    if |key| > 0 {
      assert LeadingUnderscores(key) == 0 && TrailingUnderscores(key) == 0 by {
        assert key[0] != '_' && key[|key| - 1] != '_';
      }
      FromSnakeCaseWithoutRuns(key);
      WordsOfWord(key);
    }
  }

  /** An underscore-free word splits into itself. */
  lemma WordsOfWord(s: string)
    requires |s| > 0 && '_' !in s
    ensures Words(s) == [s]
  {
    var n := RunLength(s);
    assert n == |s|;
    assert s[..n] == s;
  }

  /** A text holding some non-underscore character has at least one component. */
  lemma {:induction false} WordsNonEmpty(s: string, i: nat)
    requires i < |s| && s[i] != '_'
    ensures |Words(s)| > 0
    decreases |s|
  {
    if s[0] == '_' {
      WordsNonEmpty(s[1..], i - 1);
    }
  }

  /** A word, then nothing or an underscore: the word is the first component. */
  lemma WordsCons(w: string, more: string)
    requires |w| > 0 && '_' !in w && (|more| == 0 || more[0] == '_')
    ensures Words(w + more) == [w] + Words(more)
  {
    var s := w + more;
    var n := RunLength(s);
    assert forall k :: 0 <= k < |w| ==> s[k] == w[k];
    assert |more| > 0 ==> s[|w|] == '_';
    assert n == |w|;
    assert s[..n] == w && s[n..] == more;
  }

  /** Text that starts and ends with a non-underscore and is one component has no underscore. */
  lemma OneWordNoUnderscore(core: string)
    requires |core| > 0 && core[0] != '_' && core[|core| - 1] != '_' && |Words(core)| == 1
    ensures '_' !in core
  {
    var n := RunLength(core);
    if n < |core| {
      WordsNonEmpty(core[n..], |core| - 1 - n);
    }
    assert core[..n] == core;
  }

  /** The camel-cased part between the underscore runs holds no underscore. */
  lemma JoinedWordsNoUnderscore(core: string)
    requires |core| > 0 && core[0] != '_' && core[|core| - 1] != '_'
    ensures '_' !in JoinedWords(core)
  {
    if |Words(core)| == 1 {
      OneWordNoUnderscore(core);
    }
  }

  /** `s` has an underscore with a non-underscore somewhere before it and somewhere after it. */
  predicate HasSnakeJoint(s: string) {
    exists i, j, k :: 0 <= i < j < k < |s| && s[i] != '_' && s[j] == '_' && s[k] != '_'
  }

  /** An inner underscore with a letter on both sides, the leftmost of which is the key's first. */
  lemma JointAt(s: string, j: nat)
    requires 0 < j < |s| - 1 && s[0] != '_' && s[j] == '_' && s[j + 1] != '_'
    ensures HasSnakeJoint(s)
  {
  }

  /** Underscore runs around an underscore-free middle form no joint. */
  lemma NoJointAround(lead: string, m: string, trail: string)
    requires forall k :: 0 <= k < |lead| ==> lead[k] == '_'
    requires forall k :: 0 <= k < |trail| ==> trail[k] == '_'
    requires '_' !in m
    ensures !HasSnakeJoint(lead + m + trail)
  {
    var r := lead + m + trail;
    forall i, j, k | 0 <= i < j < k < |r| && r[j] == '_'
      ensures r[i] == '_' || r[k] == '_'
    {
      if j < |lead| {
        assert r[i] == lead[i];
      } else if j >= |lead| + |m| {
        assert r[k] == trail[k - |lead| - |m|];
      }
    }
  }

  /** In a key with a non-underscore, the two underscore runs leave a middle that starts and ends with one. */
  lemma CoreBounds(key: string)
    requires LeadingUnderscores(key) < |key|
    ensures LeadingUnderscores(key) + TrailingUnderscores(key) < |key|
    ensures key[|key| - TrailingUnderscores(key) - 1] != '_'
  {
    var lead := LeadingUnderscores(key);
    assert key[lead] != '_';
  }

  /** A key with a non-underscore converts to its underscore runs around an underscore-free middle. */
  lemma FromSnakeCaseParts(key: string) returns (m: string)
    requires LeadingUnderscores(key) < |key|
    ensures FromSnakeCase(key) == key[..LeadingUnderscores(key)] + m + key[|key| - TrailingUnderscores(key)..]
    ensures '_' !in m
  {
    var lead := LeadingUnderscores(key);
    var trail := TrailingUnderscores(key);
    CoreBounds(key);
    var core := key[lead..|key| - trail];
    assert core[0] == key[lead];
    m := JoinedWords(core);
    assert FromSnakeCase(key) == key[..lead] + m + key[|key| - trail..] by {
      assert lead != |key|;
    }
    assert '_' !in m by {
      assert core[|core| - 1] == key[|key| - trail - 1];
      JoinedWordsNoUnderscore(core);
    }
  }

  /** A converted key keeps underscores only in its leading and trailing runs. */
  lemma FromSnakeCaseHasNoJoint(key: string)
    ensures !HasSnakeJoint(FromSnakeCase(key))
  {
    var r := FromSnakeCase(key);
    var lead := LeadingUnderscores(key);
    if lead == |key| {
      assert forall k :: 0 <= k < |r| ==> r[k] == '_';
    } else {
      var trail := TrailingUnderscores(key);
      var m := FromSnakeCaseParts(key);
      var front, back := key[..lead], key[|key| - trail..];
      assert forall k :: 0 <= k < |front| ==> front[k] == key[k];
      assert forall k :: 0 <= k < |back| ==> back[k] == key[|key| - trail + k];
      NoJointAround(front, m, back);
    }
  }

  /** The components of the snake_case humps: each capital in lower case followed by the rest of its word. */
  function SnakeWords(words: seq<(char, string)>): (r: seq<string>)
    requires forall k :: 0 <= k < |words| ==> IsUpper(words[k].0)
    ensures |r| == |words|
  {
    if |words| == 0 then [] else [[ToLower(words[0].0)] + words[0].1] + SnakeWords(words[1..])
  }

  /** Snake humps split into their words, and end with a non-underscore. */
  lemma {:induction false} WordsOfSnake(words: seq<(char, string)>)
    requires forall k :: 0 <= k < |words| ==> IsUpper(words[k].0) && '_' !in words[k].1
    ensures Words(Snake(words)) == SnakeWords(words)
    ensures |words| > 0 ==> |Snake(words)| > 0 && Snake(words)[0] == '_' && Snake(words)[|Snake(words)| - 1] != '_'
    decreases |words|
  {
    if |words| > 0 {
      var w := [ToLower(words[0].0)] + words[0].1;
      var more := Snake(words[1..]);
      WordsOfSnake(words[1..]);
      assert Snake(words) == ['_'] + (w + more);
      assert (['_'] + (w + more))[1..] == w + more;
      WordsCons(w, more);
    }
  }

  /** Capitalising the lower-cased humps gives the camelCase humps back. */
  lemma {:induction false} CapitalizeSnakeWords(words: seq<(char, string)>)
    requires forall k :: 0 <= k < |words| ==> IsUpper(words[k].0) && NoUpper(words[k].1)
    ensures CapitalizeAll(SnakeWords(words)) == Camel(words)
    decreases |words|
  {
    if |words| > 0 {
      var w := [ToLower(words[0].0)] + words[0].1;
      assert w[1..] == words[0].1;
      CaseRoundTrip(words[0].0);
      CapitalizeSnakeWords(words[1..]);
    }
  }

  /** The snake_case form of a name starts and ends with a non-underscore, and splits into its words. */
  lemma SnakeKeyShape(first: string, words: seq<(char, string)>)
    requires |first| > 0 && '_' !in first
    requires forall k :: 0 <= k < |words| ==> IsUpper(words[k].0) && '_' !in words[k].1
    ensures LeadingUnderscores(first + Snake(words)) == 0
    ensures TrailingUnderscores(first + Snake(words)) == 0
    ensures Words(first + Snake(words)) == [first] + SnakeWords(words)
  {
    var key := first + Snake(words);
    WordsOfSnake(words);
    assert key[0] == first[0];
    if |words| > 0 {
      assert key[|key| - 1] == Snake(words)[|Snake(words)| - 1];
    } else {
      assert key == first;
    }
    WordsCons(first, Snake(words));
  }

  /** Converting the snake_case form of a name made of a first word and capitalised humps gives the name back. */
  lemma FromSnakeCaseOfSnake(first: string, words: seq<(char, string)>)
    requires |first| > 0 && NoUpper(first) && '_' !in first
    requires forall k :: 0 <= k < |words| ==> IsUpper(words[k].0) && NoUpper(words[k].1) && '_' !in words[k].1
    ensures FromSnakeCase(first + Snake(words)) == first + Camel(words)
  {
    var key := first + Snake(words);
    SnakeKeyShape(first, words);
    FromSnakeCaseWithoutRuns(key);
    if |words| > 0 {
      JoinedWordsOfSnake(first, words);
    }
  }

  /** A key that neither starts nor ends with an underscore is camel-cased as a whole. */
  lemma FromSnakeCaseWithoutRuns(key: string)
    requires |key| > 0 && LeadingUnderscores(key) == 0 && TrailingUnderscores(key) == 0
    ensures FromSnakeCase(key) == JoinedWords(key)
  {
    assert key[0..|key|] == key && key[..0] == "" && key[|key|..] == "";
  }

  lemma JoinedWordsOfSnake(first: string, words: seq<(char, string)>)
    requires |first| > 0 && NoUpper(first) && '_' !in first && |words| > 0
    requires forall k :: 0 <= k < |words| ==> IsUpper(words[k].0) && NoUpper(words[k].1) && '_' !in words[k].1
    requires Words(first + Snake(words)) == [first] + SnakeWords(words)
    ensures JoinedWords(first + Snake(words)) == first + Camel(words)
  {
    var key := first + Snake(words);
    assert Words(key)[1..] == SnakeWords(words);
    CapitalizeSnakeWords(words);
  }

  /**
   * Converting the snake_case form of an underscore-free name that does not
   * start with a capital gives the name back.
   */
  lemma FromSnakeCaseOfSnakeCase(s: string)
    requires '_' !in s && (|s| == 0 || !IsUpper(s[0]))
    ensures FromSnakeCase(SnakeCase(s)) == s
  {
    if |s| > 0 {
      var first, words := Humps(s);
      SnakeCaseOfWords(first, words);
      FromSnakeCaseOfSnake(first, words);
    }
  }

  /** A name starting with a capital is not given back: its snake_case form starts with an underscore, which is kept. */
  lemma CapitalisedNameNotRecovered(s: string)
    requires |s| > 0 && IsUpper(s[0])
    ensures FromSnakeCase(SnakeCase(s)) != s
  {
    var key := SnakeCase(s);
    assert key[0] == '_';
    assert LeadingUnderscores(key) > 0;
    var r := FromSnakeCase(key);
    assert r[..LeadingUnderscores(key)][0] == '_';
  }
  /** How the decoder turns the keys of a JSON object into coding-key strings. */
  datatype KeyStrategy = UseDefaultKeys | ConvertFromSnakeCase

  function DecoderKey(jsonKey: string, strategy: KeyStrategy): string {
    match strategy
    case UseDefaultKeys => jsonKey
    case ConvertFromSnakeCase => FromSnakeCase(jsonKey)
  }

  /** A JSON object as its members in document order. */
  type JsonObject<V> = seq<(string, V)>

  /** The member the decoder finds for `codingKey`: the first whose converted key equals it. */
  function Lookup<V>(obj: JsonObject<V>, codingKey: string, strategy: KeyStrategy): (r: Option<V>)
    ensures r.Some? <==> exists i :: 0 <= i < |obj| && DecoderKey(obj[i].0, strategy) == codingKey
    ensures r.Some? ==> exists i :: 0 <= i < |obj| && DecoderKey(obj[i].0, strategy) == codingKey && obj[i].1 == r.value
  {
    if |obj| == 0 then None
    else if DecoderKey(obj[0].0, strategy) == codingKey then Some(obj[0].1)
    else
      var r := Lookup(obj[1..], codingKey, strategy);
      LookupPastFirst(obj, codingKey, strategy, r);
      r
  }

  /** What the rest of the members yield is what the whole object yields once the first member fails to match. */
  lemma LookupPastFirst<V>(obj: JsonObject<V>, codingKey: string, strategy: KeyStrategy, r: Option<V>)
    requires |obj| > 0 && DecoderKey(obj[0].0, strategy) != codingKey
    requires r.Some? <==> exists i :: 0 <= i < |obj[1..]| && DecoderKey(obj[1..][i].0, strategy) == codingKey
    requires r.Some? ==> exists i :: 0 <= i < |obj[1..]| && DecoderKey(obj[1..][i].0, strategy) == codingKey && obj[1..][i].1 == r.value
    ensures r.Some? <==> exists i :: 0 <= i < |obj| && DecoderKey(obj[i].0, strategy) == codingKey
    ensures r.Some? ==> exists i :: 0 <= i < |obj| && DecoderKey(obj[i].0, strategy) == codingKey && obj[i].1 == r.value
  {
    assert forall i :: 1 <= i < |obj| ==> obj[1..][i - 1] == obj[i];
  }

  /** The first member whose converted key matches is the one found. */
  lemma {:induction false} LookupAt<V>(obj: JsonObject<V>, codingKey: string, strategy: KeyStrategy, k: nat)
    requires k < |obj| && DecoderKey(obj[k].0, strategy) == codingKey
    requires forall j :: 0 <= j < k ==> DecoderKey(obj[j].0, strategy) != codingKey
    ensures Lookup(obj, codingKey, strategy) == Some(obj[k].1)
    decreases k
  {
    if k > 0 {
      LookupAt(obj[1..], codingKey, strategy, k - 1);
    }
  }

  /** Under snake_case conversion a coding key written in snake_case matches no member at all. */
  lemma SnakeCodingKeyNeverFound<V>(obj: JsonObject<V>, codingKey: string)
    requires HasSnakeJoint(codingKey)
    ensures Lookup(obj, codingKey, ConvertFromSnakeCase) == None
  {
    forall i | 0 <= i < |obj| ensures FromSnakeCase(obj[i].0) != codingKey {
      FromSnakeCaseHasNoJoint(obj[i].0);
    }
  }

  /** Under snake_case conversion the camelCase coding key finds the member sent under its snake_case name. */
  lemma CamelCodingKeyFound<V>(obj: JsonObject<V>, name: string, i: nat)
    requires '_' !in name && (|name| == 0 || !IsUpper(name[0]))
    requires i < |obj| && obj[i].0 == SnakeCase(name)
    ensures Lookup(obj, name, ConvertFromSnakeCase).Some?
  {
    FromSnakeCaseOfSnakeCase(name);
  }
}
