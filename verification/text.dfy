/** Python string primitives the two programs rely on, restricted to ASCII:
    `str.isspace`, `strip`, `upper`, the `in` substring test, `split(sep)`,
    `sep.join(parts)` and `split()[-1]`. */
module Text {

  /** Python's `str.isspace` on the ASCII range: space, tab, line feed, vertical
      tab, form feed, carriage return and the four separators 0x1C..0x1F. */
  predicate IsSpace(c: char) {
    c == ' ' || ('\t' <= c <= '\r') || ('\U{1C}' <= c <= '\U{1F}')
  }

  predicate AllSpace(s: string) {
    forall i :: 0 <= i < |s| ==> IsSpace(s[i])
  }

  lemma AllSpaceCons(c: char, w: string)
    requires IsSpace(c) && AllSpace(w)
    ensures AllSpace([c] + w)
  {
  }

  lemma AllSpaceSnoc(w: string, c: char)
    requires AllSpace(w) && IsSpace(c)
    ensures AllSpace(w + [c])
  {
  }

  /** No character of `s` is whitespace. */
  predicate NoSpace(s: string) {
    forall i :: 0 <= i < |s| ==> !IsSpace(s[i])
  }

  /** `s.lstrip()`: drop leading whitespace. */
  function LStrip(s: string): string {
    if s != [] && IsSpace(s[0]) then LStrip(s[1..]) else s
  }

  /** `s.rstrip()`: drop trailing whitespace. */
  function RStrip(s: string): string {
    if s != [] && IsSpace(s[|s| - 1]) then RStrip(s[..|s| - 1]) else s
  }

  /** Left strip removes a whitespace prefix and nothing else, and what is
      left does not start with whitespace. */
  lemma {:induction false} LStripSpec(s: string)
    ensures var r := LStrip(s);
      && |r| <= |s| && s == s[..|s| - |r|] + r
      && AllSpace(s[..|s| - |r|])
      && (r == [] || !IsSpace(r[0]))
  {
    if s != [] && IsSpace(s[0]) {
      var t := s[1..];
      LStripSpec(t);
      var m := |t| - |LStrip(t)|;
      assert s[..m + 1] == [s[0]] + t[..m];
      AllSpaceCons(s[0], t[..m]);
    }
  }

  /** Right strip removes a whitespace suffix and nothing else, and what is
      left does not end with whitespace. */
  lemma {:induction false} RStripSpec(s: string)
    ensures var r := RStrip(s);
      && |r| <= |s| && s == r + s[|r|..]
      && AllSpace(s[|r|..])
      && (r == [] || !IsSpace(r[|r| - 1]))
  {
    if s != [] && IsSpace(s[|s| - 1]) {
      var t := s[..|s| - 1];
      RStripSpec(t);
      var m := |RStrip(t)|;
      assert s[m..] == t[m..] + [s[|s| - 1]];
      AllSpaceSnoc(t[m..], s[|s| - 1]);
    }
  }

  /** `s.strip()`. */
  function Strip(s: string): string {
    RStrip(LStrip(s))
  }

  /** Strip removes exactly the whitespace at both ends: what is left
      neither starts nor ends with whitespace, and it is empty exactly when
      `s` is all whitespace. */
  lemma StripSpec(s: string)
    ensures var r := Strip(s); r == [] || (!IsSpace(r[0]) && !IsSpace(r[|r| - 1]))
    ensures Strip(s) == [] <==> AllSpace(s)
  {
    LStripSpec(s);
    var l := LStrip(s);
    RStripSpec(l);
    var r := RStrip(l);
    var i := |s| - |l|;
    assert l == s[i..];
    if r == [] {
      assert l == l[..0] + l[0..];
      assert AllSpace(l);
      assert l == [];
      forall k | 0 <= k < |s| ensures IsSpace(s[k]) {
        assert s[k] == s[..i][k];
      }
    } else {
      assert r[0] == l[0];
      assert s[i] == l[0];
    }
  }

  /** A string that already has no whitespace at its ends is left alone. */
  lemma StripTrimmed(s: string)
    requires s == [] || (!IsSpace(s[0]) && !IsSpace(s[|s| - 1]))
    ensures Strip(s) == s
  {
  }

  /** Strip is idempotent. */
  lemma StripIdempotent(s: string)
    ensures Strip(Strip(s)) == Strip(s)
  {
    StripSpec(s);
    StripTrimmed(Strip(s));
  }

  /** Leading whitespace does not change the result of strip. */
  lemma StripLeadingSpace(c: char, s: string)
    requires IsSpace(c)
    ensures Strip([c] + s) == Strip(s)
  {
    assert ([c] + s)[1..] == s;
  }

  /** Strip removes whitespace padding on both sides of a trimmed string. */
  lemma StripPadded(pre: string, s: string, post: string)
    requires AllSpace(pre) && AllSpace(post)
    requires s != [] && !IsSpace(s[0]) && !IsSpace(s[|s| - 1])
    ensures Strip(pre + s + post) == s
  {
    assert pre + s + post == pre + (s + post);
    LStripPadded(pre, s + post);
    assert LStrip(pre + s + post) == s + post;
    RStripPadded(s, post);
  }

  lemma {:induction false} LStripPadded(pre: string, s: string)
    requires AllSpace(pre)
    requires s != [] && !IsSpace(s[0])
    ensures LStrip(pre + s) == s
  {
    if pre != [] {
      assert (pre + s)[1..] == pre[1..] + s;
      LStripPadded(pre[1..], s);
    }
  }

  lemma {:induction false} RStripPadded(s: string, post: string)
    requires AllSpace(post)
    requires s != [] && !IsSpace(s[|s| - 1])
    ensures RStrip(s + post) == s
  {
    if post != [] {
      var q := post[..|post| - 1];
      assert (s + post)[..|s + post| - 1] == s + q;
      RStripPadded(s, q);
    }
  }

  /** ASCII `str.upper` on one character. */
  function UpperChar(c: char): (d: char)
    ensures 'a' <= c <= 'z' ==> d as int == c as int - 32
    ensures !('a' <= c <= 'z') ==> d == c
  {
    if 'a' <= c <= 'z' then (c as int - 32) as char else c
  }

  /** ASCII `str.upper`. */
  function Upper(s: string): (r: string)
    ensures |r| == |s|
    ensures forall i :: 0 <= i < |s| ==> r[i] == UpperChar(s[i])
  {
    if s == [] then [] else [UpperChar(s[0])] + Upper(s[1..])
  }

  predicate IsUpper(s: string) {
    forall i :: 0 <= i < |s| ==> !('a' <= s[i] <= 'z')
  }

  /** Upper leaves no lower-case letter and is idempotent. */
  lemma UpperIdempotent(s: string)
    ensures IsUpper(Upper(s))
    ensures Upper(Upper(s)) == Upper(s)
  {
  }

  /** Upper maps whitespace to whitespace and everything else to non-whitespace. */
  lemma UpperKeepsSpace(c: char)
    ensures IsSpace(UpperChar(c)) <==> IsSpace(c)
  {
  }

  /** `s.strip().upper()`, the normal form both programs give a ticker symbol. */
  function Normalize(s: string): (r: string)
    ensures IsUpper(r)
    ensures r == [] <==> AllSpace(s)
    ensures r == [] || (!IsSpace(r[0]) && !IsSpace(r[|r| - 1]))
  {
    StripSpec(s);
    var t := Strip(s);
    UpperKeepsSpace(if t == [] then ' ' else t[0]);
    UpperKeepsSpace(if t == [] then ' ' else t[|t| - 1]);
    UpperIdempotent(t);
    Upper(t)
  }

  /** Normalising twice gives the same symbol as normalising once. */
  lemma NormalizeIdempotent(s: string)
    ensures Normalize(Normalize(s)) == Normalize(s)
  {
    var n := Normalize(s);
    StripTrimmed(n);
    UpperIdempotent(Strip(s));
  }

  /** `p` occurs in `s` starting at index `i`. */
  predicate OccursAt(s: string, p: string, i: nat) {
    i + |p| <= |s| && s[i..i + |p|] == p
  }

  /** Python's `p in s` for strings: `p` occurs as a contiguous piece of `s`. */
  predicate Contains(s: string, p: string) {
    exists i :: 0 <= i <= |s| - |p| && OccursAt(s, p, i)
  }

  /** If some character of `p` never appears in `s`, then `p` does not occur in `s`. */
  lemma MissingCharNotContained(s: string, p: string, c: char)
    requires c in p && c !in s
    ensures !Contains(s, p)
  {
  }

  /** A string occurs in any string it starts. */
  lemma ContainsPrefix(p: string, s: string)
    ensures Contains(p + s, p)
  {
    assert OccursAt(p + s, p, 0);
  }

  /** Python's `sep.join(parts)`. */
  function Join(parts: seq<string>, sep: string): string {
    if |parts| == 0 then ""
    else if |parts| == 1 then parts[0]
    else parts[0] + sep + Join(parts[1..], sep)
  }

  /** A join starts with its first part. */
  lemma JoinStartsWith(parts: seq<string>, sep: string)
    requires |parts| >= 1
    ensures |Join(parts, sep)| >= |parts[0]| && Join(parts, sep)[..|parts[0]|] == parts[0]
  {
  }

  /** A join ends with its last part. */
  lemma {:induction false} JoinEndsWith(parts: seq<string>, sep: string)
    requires |parts| >= 1
    ensures var j := Join(parts, sep); var last := parts[|parts| - 1];
      |j| >= |last| && j[|j| - |last|..] == last
  {
    if |parts| > 1 {
      JoinEndsWith(parts[1..], sep);
      var rest := Join(parts[1..], sep);
      assert Join(parts, sep) == parts[0] + sep + rest;
    }
  }

  /** Appending a part to a join adds the separator, unless the join was
      empty, and the part. */
  lemma {:induction false} JoinSnoc(parts: seq<string>, x: string, sep: string)
    ensures Join(parts + [x], sep) == if parts == [] then x else Join(parts, sep) + sep + x
  {
    if parts == [] {
      assert parts + [x] == [x];
    } else if |parts| > 1 {
      JoinSnoc(parts[1..], x, sep);
      assert (parts + [x])[1..] == parts[1..] + [x];
    } else {
      assert (parts + [x])[1..] == [x];
    }
  }

  /** Python's `s.split(c)` for a one-character separator: always at least
      one part, and no part contains the separator. */
  function Split(s: string, c: char): (parts: seq<string>)
    ensures |parts| >= 1
    ensures forall k :: 0 <= k < |parts| ==> c !in parts[k]
  {
    if s == [] then [""]
    else
      var rest := Split(s[1..], c);
      if s[0] == c then [""] + rest else [[s[0]] + rest[0]] + rest[1..]
  }

  /** Joining the parts of a split with the separator gives back the string. */
  lemma {:induction false} JoinSplit(s: string, c: char)
    ensures Join(Split(s, c), [c]) == s
  {
    if s != [] {
      var rest := Split(s[1..], c);
      JoinSplit(s[1..], c);
      if s[0] == c {
        assert Split(s, c) == [""] + rest;
        assert ([""] + rest)[1..] == rest;
      } else {
        assert Split(s, c) == [[s[0]] + rest[0]] + rest[1..];
        JoinConsChar(s[0], rest, [c]);
      }
    }
  }

  /** Prefixing the first part with one character prefixes the join with it. */
  lemma JoinConsChar(a: char, parts: seq<string>, sep: string)
    requires |parts| >= 1
    ensures Join([[a] + parts[0]] + parts[1..], sep) == [a] + Join(parts, sep)
  {
    var q := [[a] + parts[0]] + parts[1..];
    if |parts| > 1 {
      assert q[1..] == parts[1..];
    }
  }

  /** Splitting the join of separator-free parts gives back the parts. */
  lemma {:induction false} SplitJoin(parts: seq<string>, c: char)
    requires |parts| >= 1
    requires forall k :: 0 <= k < |parts| ==> c !in parts[k]
    ensures Split(Join(parts, [c]), c) == parts
    decreases |parts|, |parts[0]|
  {
    if parts[0] == [] {
      if |parts| == 1 {
      } else {
        SplitJoin(parts[1..], c);
        var s := Join(parts, [c]);
        assert s == [c] + Join(parts[1..], [c]);
        assert s[1..] == Join(parts[1..], [c]);
        assert [""] + parts[1..] == parts;
      }
    } else {
      var a := parts[0][0];
      var tail := [parts[0][1..]] + parts[1..];
      assert [a] + tail[0] == parts[0];
      assert tail[1..] == parts[1..];
      assert parts == [[a] + tail[0]] + tail[1..];
      JoinConsChar(a, tail, [c]);
      assert c !in tail[0] by { assert forall x :: x in tail[0] ==> x in parts[0]; }
      SplitJoin(tail, c);
      var s := Join(parts, [c]);
      assert s[1..] == Join(tail, [c]);
      assert s[0] == a && a != c;
    }
  }

  /** The word `s.split()[-1]` picks: the last maximal run of non-whitespace. */
  function LastWord(s: string): string {
    TrailingWord(RStrip(s))
  }

  /** The non-whitespace run at the very end of `s` (empty if `s` ends in whitespace). */
  function TrailingWord(s: string): string {
    if s == [] || IsSpace(s[|s| - 1]) then []
    else TrailingWord(s[..|s| - 1]) + [s[|s| - 1]]
  }

  lemma NoSpaceSnoc(w: string, c: char)
    requires NoSpace(w)
    requires !IsSpace(c)
    ensures NoSpace(w + [c])
  {
  }

  /** `w` is a suffix of `s` made of non-whitespace characters, preceded by
      whitespace or by nothing. */
  predicate IsTrailingWord(s: string, w: string) {
    && |w| <= |s| && s == s[..|s| - |w|] + w
    && NoSpace(w)
    && (|w| < |s| ==> IsSpace(s[|s| - |w| - 1]))
  }

  /** `TrailingWord` computes the whole non-whitespace run at the end. */
  lemma {:induction false} TrailingWordSpec(s: string)
    ensures IsTrailingWord(s, TrailingWord(s))
  {
    if s != [] && !IsSpace(s[|s| - 1]) {
      var t := s[..|s| - 1];
      TrailingWordSpec(t);
      assert s == t + [s[|s| - 1]];
      TrailingWordStep(t, s[|s| - 1], TrailingWord(t));
    }
  }

  /** The step of `TrailingWordSpec`: a non-whitespace character appended to
      a line extends its trailing word. */
  lemma TrailingWordStep(t: string, c: char, w: string)
    requires !IsSpace(c) && IsTrailingWord(t, w)
    ensures IsTrailingWord(t + [c], w + [c])
  {
    var s := t + [c];
    var m := |t| - |w|;
    assert s[..m] == t[..m];
    NoSpaceSnoc(w, c);
    if m > 0 {
      assert s[m - 1] == t[m - 1];
    }
  }

  /** The last word of a line `head + word`, where `head` ends in whitespace and
      `word` is a non-empty run of non-whitespace, is `word`. */
  lemma {:induction false} LastWordOfSuffix(head: string, word: string)
    requires head != [] && IsSpace(head[|head| - 1])
    requires word != [] && NoSpace(word)
    ensures LastWord(head + word) == word
  {
    assert RStrip(head + word) == head + word;
    TrailingWordOfSuffix(head, word);
  }

  lemma {:induction false} TrailingWordOfSuffix(head: string, word: string)
    requires head != [] && IsSpace(head[|head| - 1])
    requires NoSpace(word)
    ensures TrailingWord(head + word) == word
    decreases |word|
  {
    if word == [] {
      assert head + word == head;
    } else {
      var s := head + word;
      var w' := word[..|word| - 1];
      assert s[..|s| - 1] == head + w';
      TrailingWordOfSuffix(head, w');
      assert word == w' + [word[|word| - 1]];
    }
  }

  /** A line that contains a non-whitespace character has a non-empty last
      word, so `split()[-1]` cannot fail on it. */
  lemma LastWordExists(s: string, c: char)
    requires c in s && !IsSpace(c)
    ensures LastWord(s) != []
  {
    RStripSpec(s);
    var r := RStrip(s);
    TrailingWordSpec(r);
    var k :| 0 <= k < |s| && s[k] == c;
    assert s == r + s[|r|..];
  }
}
