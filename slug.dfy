/** URL slugs for blog titles (`generate_slug` in utils.py).

    The source is a chain of four string transforms, modelled here one function
    per stage:
      1. Unicode NFKD normalisation followed by an ASCII encode that drops what
         it cannot encode (`AsciiOnly`);
      2. lower-casing (`Lower`);
      3. replacing every maximal run of characters outside `[a-z0-9]` by one `-`
         (`Collapse`, the `re.sub`);
      4. stripping `-` from both ends (`Strip`).
    `GenerateSlug` composes them. The lemmas below state what a slug looks like,
    that it keeps the input's letters and digits in order, and that slugging is
    idempotent. */
module Slug {
  import opened Http

  /** The character class `[a-z0-9]` of the regular expression. */
  predicate IsAlnum(c: char)
  {
    ('a' <= c <= 'z') || ('0' <= c <= '9')
  }

  /** An ASCII letter of either case or an ASCII digit. */
  predicate IsAsciiAlnum(c: char)
  {
    ('a' <= c <= 'z') || ('A' <= c <= 'Z') || ('0' <= c <= '9')
  }

  /** `str.lower()` on one ASCII character. */
  function LowerChar(c: char): (r: char)
    ensures IsAsciiAlnum(c) <==> IsAlnum(r)
    ensures IsAlnum(c) ==> r == c
  {
    if 'A' <= c <= 'Z' then (c as int + 32) as char else c
  }

  // ---------------------------------------------------------------------------
  // The four stages
  // ---------------------------------------------------------------------------

  /** Stage 1: the characters of `s` that are ASCII, in order. A character
      that survives the encode is ASCII; one that is not is dropped, not
      replaced, so any non-ASCII character makes the result shorter. */
  function AsciiOnly(s: string): (r: string)
    ensures |r| <= |s|
    ensures forall i :: 0 <= i < |r| ==> IsAscii(r[i])
    ensures (forall i :: 0 <= i < |s| ==> IsAscii(s[i])) ==> r == s
    ensures |r| == |s| ==> forall i :: 0 <= i < |s| ==> IsAscii(s[i])
  {
    if s == [] then []
    else (if IsAscii(s[0]) then [s[0]] else []) + AsciiOnly(s[1..])
  }

  /** Stage 2: `s` with every ASCII capital replaced by its small letter. */
  function Lower(s: string): (r: string)
    ensures |r| == |s|
    ensures forall i :: 0 <= i < |s| ==> r[i] == LowerChar(s[i])
  {
    if s == [] then [] else [LowerChar(s[0])] + Lower(s[1..])
  }

  /** `s` without its leading run of characters outside `[a-z0-9]`. */
  function SkipRun(s: string): (r: string)
    ensures |r| <= |s|
    ensures r == [] || IsAlnum(r[0])
  {
    if s != [] && !IsAlnum(s[0]) then SkipRun(s[1..]) else s
  }

  /** Stage 3: `re.sub(r"[^a-z0-9]+", "-", s)`. A maximal run of characters
      outside `[a-z0-9]` (input hyphens included) becomes a single `-`. */
  function Collapse(s: string): (r: string)
    ensures AllSlugChars(r) && NoDoubleHyphen(r)
    ensures r == [] <==> s == []
    ensures r != [] ==> (r[0] == '-' <==> !IsAlnum(s[0]))
    decreases |s|
  {
    if s == [] then []
    else if IsAlnum(s[0]) then [s[0]] + Collapse(s[1..])
    else "-" + Collapse(SkipRun(s[1..]))
  }

  /** `s` without its leading hyphens. */
  function StripLeading(s: string): (r: string)
    ensures |r| <= |s| && r == s[|s| - |r|..]
    ensures r == [] || r[0] != '-'
    ensures forall i :: 0 <= i < |s| - |r| ==> s[i] == '-'
  {
    if s != [] && s[0] == '-' then StripLeading(s[1..]) else s
  }

  /** `s` without its trailing hyphens. */
  function StripTrailing(s: string): (r: string)
    ensures |r| <= |s| && r == s[..|r|]
    ensures r == [] || r[|r| - 1] != '-'
    ensures forall i :: |r| <= i < |s| ==> s[i] == '-'
  {
    if s != [] && s[|s| - 1] == '-' then StripTrailing(s[..|s| - 1]) else s
  }

  /** Stage 4: `s.strip("-")`. */
  function Strip(s: string): (r: string)
    ensures r == [] || (r[0] != '-' && r[|r| - 1] != '-')
  {
    StripTrailing(StripLeading(s))
  }

  /** `generate_slug(text)`. Every slug is in `[a-z0-9-]`, has no `--`, and
      neither starts nor ends with `-`. */
  function GenerateSlug(text: string): (r: string)
    ensures IsSlug(r)
  {
    var c := Collapse(Lower(AsciiOnly(text)));
    var l := StripLeading(c);
    SliceKeepsShape(c, |c| - |l|, |c|);
    SliceKeepsShape(l, 0, |StripTrailing(l)|);
    Strip(c)
  }

  // ---------------------------------------------------------------------------
  // What a slug is
  // ---------------------------------------------------------------------------

  /** Every character is in `[a-z0-9-]`. */
  predicate AllSlugChars(s: string)
  {
    forall i :: 0 <= i < |s| ==> IsAlnum(s[i]) || s[i] == '-'
  }

  /** No two hyphens are adjacent. */
  predicate NoDoubleHyphen(s: string)
  {
    forall i :: 0 <= i < |s| - 1 ==> !(s[i] == '-' && s[i + 1] == '-')
  }

  /** The shape of every value `generate_slug` returns. */
  predicate IsSlug(s: string)
  {
    && AllSlugChars(s)
    && NoDoubleHyphen(s)
    && (s == [] || (s[0] != '-' && s[|s| - 1] != '-'))
  }

  /** The characters of `s` in `[a-z0-9]`, in order. */
  function Alnums(s: string): string
  {
    if s == [] then [] else (if IsAlnum(s[0]) then [s[0]] else []) + Alnums(s[1..])
  }

  /** The ASCII letters and digits of `text`, lower-cased, in order: the part of
      the input a slug is meant to keep. */
  function LowerAlnums(text: string): string
  {
    if text == [] then []
    else (if IsAsciiAlnum(text[0]) then [LowerChar(text[0])] else []) + LowerAlnums(text[1..])
  }

  // ---------------------------------------------------------------------------
  // Properties of generate_slug
  // ---------------------------------------------------------------------------

  /** A contiguous piece of a string keeps its character set and its lack of
      adjacent hyphens. */
  lemma SliceKeepsShape(s: string, lo: int, hi: int)
    requires 0 <= lo <= hi <= |s|
    requires AllSlugChars(s) && NoDoubleHyphen(s)
    ensures AllSlugChars(s[lo..hi]) && NoDoubleHyphen(s[lo..hi])
  {
    var t := s[lo..hi];
    forall i | 0 <= i < |t| - 1 ensures !(t[i] == '-' && t[i + 1] == '-') {
      assert t[i] == s[lo + i] && t[i + 1] == s[lo + i + 1];
    }
  }

  /** What `SkipRun` drops is a prefix of characters outside `[a-z0-9]`. */
  lemma {:induction false} SkipRunDropsSeparators(s: string)
    ensures |SkipRun(s)| <= |s| && SkipRun(s) == s[|s| - |SkipRun(s)|..]
    ensures forall i :: 0 <= i < |s| - |SkipRun(s)| ==> !IsAlnum(s[i])
  {
    if s != [] && !IsAlnum(s[0]) {
      SkipRunDropsSeparators(s[1..]);
      var r := SkipRun(s[1..]);
      assert s[1..][|s| - 1 - |r|..] == s[|s| - |r|..];
      forall i | 1 <= i < |s| - |r| ensures !IsAlnum(s[i]) {
        assert s[i] == s[1..][i - 1];
      }
    }
  }

  /** `s.strip("-")` removes hyphens only: the slug is the piece
      `s[lo..lo + |r|]` of its input, and every character outside that piece
      is a hyphen. With the ends of the result not being hyphens, this
      determines the result. */
  lemma StripRemovesOnlyHyphens(s: string)
    ensures var r, lo := Strip(s), |s| - |StripLeading(s)|;
      && lo + |r| <= |s| && r == s[lo..lo + |r|]
      && (forall i :: 0 <= i < lo ==> s[i] == '-')
      && (forall i :: lo + |r| <= i < |s| ==> s[i] == '-')
  {
    var l := StripLeading(s);
    var r := StripTrailing(l);
    var lo := |s| - |l|;
    assert r == s[lo..][..|r|];
    forall i | lo + |r| <= i < |s| ensures s[i] == '-' {
      assert s[i] == l[i - lo];
    }
  }

  /** `AsciiOnly` works character by character. */
  lemma {:induction false} AsciiOnlyAppend(a: string, b: string)
    ensures AsciiOnly(a + b) == AsciiOnly(a) + AsciiOnly(b)
  {
    if a == [] {
      assert a + b == b;
    } else {
      assert (a + b)[1..] == a[1..] + b;
      AsciiOnlyAppend(a[1..], b);
    }
  }

  lemma {:induction false} AlnumsAppend(a: string, b: string)
    ensures Alnums(a + b) == Alnums(a) + Alnums(b)
  {
    if a == [] {
      assert a + b == b;
    } else {
      var head := if IsAlnum(a[0]) then [a[0]] else [];
      assert (a + b)[0] == a[0] && (a + b)[1..] == a[1..] + b;
      assert Alnums(a + b) == head + Alnums(a[1..] + b);
      AlnumsAppend(a[1..], b);
      assert Alnums(a) == head + Alnums(a[1..]);
    }
  }

  lemma {:induction false} AlnumsOfSkipRun(s: string)
    ensures Alnums(SkipRun(s)) == Alnums(s)
  {
    if s != [] && !IsAlnum(s[0]) {
      AlnumsOfSkipRun(s[1..]);
    }
  }

  lemma {:induction false} AlnumsOfCollapse(s: string)
    ensures Alnums(Collapse(s)) == Alnums(s)
    decreases |s|
  {
    if s == [] {
    } else if IsAlnum(s[0]) {
      var rest := Collapse(s[1..]);
      assert ([s[0]] + rest)[1..] == rest;
      AlnumsOfCollapse(s[1..]);
    } else {
      var rest := Collapse(SkipRun(s[1..]));
      assert ("-" + rest)[1..] == rest;
      AlnumsOfCollapse(SkipRun(s[1..]));
      AlnumsOfSkipRun(s[1..]);
    }
  }

  lemma {:induction false} AlnumsOfStripLeading(s: string)
    ensures Alnums(StripLeading(s)) == Alnums(s)
  {
    if s != [] && s[0] == '-' {
      AlnumsOfStripLeading(s[1..]);
    }
  }

  lemma {:induction false} AlnumsOfStripTrailing(s: string)
    ensures Alnums(StripTrailing(s)) == Alnums(s)
  {
    if s != [] && s[|s| - 1] == '-' {
      var init := s[..|s| - 1];
      assert s == init + [s[|s| - 1]];
      AlnumsAppend(init, [s[|s| - 1]]);
      AlnumsOfStripTrailing(init);
    }
  }

  lemma {:induction false} AlnumsOfLowerAscii(text: string)
    ensures Alnums(Lower(AsciiOnly(text))) == LowerAlnums(text)
  {
    if text != [] {
      var head := if IsAscii(text[0]) then [text[0]] else [];
      var tail := AsciiOnly(text[1..]);
      assert Lower(head + tail) == Lower(head) + Lower(tail);
      AlnumsAppend(Lower(head), Lower(tail));
      AlnumsOfLowerAscii(text[1..]);
      if IsAscii(text[0]) {
        assert Lower(head) == [LowerChar(text[0])];
        assert Alnums(Lower(head)) == Alnums([LowerChar(text[0])]);
      }
    }
  }

  /** The slug keeps exactly the ASCII letters and digits of the input,
      lower-cased and in their original order; everything else in it is `-`. */
  lemma SlugKeepsAlnums(text: string)
    ensures Alnums(GenerateSlug(text)) == LowerAlnums(text)
  {
    var c := Collapse(Lower(AsciiOnly(text)));
    AlnumsOfLowerAscii(text);
    AlnumsOfCollapse(Lower(AsciiOnly(text)));
    AlnumsOfStripLeading(c);
    AlnumsOfStripTrailing(StripLeading(c));
  }

  /** The slug is empty exactly when the input has no ASCII letter or digit. */
  lemma SlugEmptyIff(text: string)
    ensures GenerateSlug(text) == [] <==> LowerAlnums(text) == []
  {
    var r := GenerateSlug(text);
    SlugKeepsAlnums(text);
    if r != [] {
      assert IsAlnum(r[0]);
      assert Alnums(r) == [r[0]] + Alnums(r[1..]);
    }
  }

  lemma {:induction false} CollapseOfSlugChars(s: string)
    requires AllSlugChars(s) && NoDoubleHyphen(s)
    ensures Collapse(s) == s
    decreases |s|
  {
    if s != [] {
      SliceKeepsShape(s, 1, |s|);
      if IsAlnum(s[0]) {
        CollapseOfSlugChars(s[1..]);
      } else {
        assert s[1..] == [] || IsAlnum(s[1]);
        assert SkipRun(s[1..]) == s[1..];
        CollapseOfSlugChars(s[1..]);
      }
    }
  }

  lemma LowerPointwise(s: string, t: string)
    requires |s| == |t| && forall i :: 0 <= i < |s| ==> t[i] == LowerChar(s[i])
    ensures Lower(s) == t
  {
  }

  /** A run of `[a-z0-9]` characters passes through `re.sub` unchanged. */
  lemma {:induction false} CollapseWord(w: string, rest: string)
    requires forall i :: 0 <= i < |w| ==> IsAlnum(w[i])
    ensures Collapse(w + rest) == w + Collapse(rest)
  {
    if w == [] {
      assert w + rest == rest;
    } else {
      assert (w + rest)[1..] == w[1..] + rest;
      CollapseWord(w[1..], rest);
    }
  }

  lemma {:induction false} SkipRunOfSeparator(sep: string, rest: string)
    requires forall i :: 0 <= i < |sep| ==> !IsAlnum(sep[i])
    requires rest == [] || IsAlnum(rest[0])
    ensures SkipRun(sep + rest) == rest
  {
    if sep == [] {
      assert sep + rest == rest;
    } else {
      assert (sep + rest)[1..] == sep[1..] + rest;
      SkipRunOfSeparator(sep[1..], rest);
    }
  }

  /** A whole run of characters outside `[a-z0-9]` becomes one hyphen. */
  lemma CollapseSeparator(sep: string, rest: string)
    requires sep != [] && forall i :: 0 <= i < |sep| ==> !IsAlnum(sep[i])
    requires rest == [] || IsAlnum(rest[0])
    ensures Collapse(sep + rest) == "-" + Collapse(rest)
  {
    assert (sep + rest)[1..] == sep[1..] + rest;
    SkipRunOfSeparator(sep[1..], rest);
  }

  /** A well-formed slug is its own slug. */
  lemma SlugOfSlug(s: string)
    requires IsSlug(s)
    ensures GenerateSlug(s) == s
  {
    assert forall i :: 0 <= i < |s| ==> IsAscii(s[i]);
    assert AsciiOnly(s) == s;
    assert Lower(s) == s;
    CollapseOfSlugChars(s);
    assert Strip(s) == s;
  }

  /** `generate_slug` is idempotent. */
  lemma SlugIdempotent(text: string)
    ensures GenerateSlug(GenerateSlug(text)) == GenerateSlug(text)
  {
    SlugOfSlug(GenerateSlug(text));
  }

  /** The example run at the bottom of utils.py. */
  lemma SlugExample()
    ensures GenerateSlug("My First Blog Post! hey") == "my-first-blog-post-hey"
  {
    var text := "My First Blog Post! hey";
    var lowered := "my" + (" " + ("first" + (" " + ("blog" + (" " + ("post" + ("! " + "hey")))))));
    var collapsed := "my" + ("-" + ("first" + ("-" + ("blog" + ("-" + ("post" + ("-" + "hey")))))));
    ExampleAscii(text);
    ExampleLower(text, lowered);
    ExampleCollapse("my", "first", "blog", "post", "hey", " ", "! ");
    ExampleJoin(collapsed);
    ExampleStrip("my-first-blog-post-hey");
  }

  lemma ExampleAscii(text: string)
    requires text == "My First Blog Post! hey"
    ensures AsciiOnly(text) == text
  {
    assert forall i :: 0 <= i < |text| ==> IsAscii(text[i]);
  }

  lemma ExampleLower(text: string, lowered: string)
    requires text == "My First Blog Post! hey"
    requires lowered == "my" + (" " + ("first" + (" " + ("blog" + (" " + ("post" + ("! " + "hey")))))))
    ensures Lower(text) == lowered
  {
    LowerPointwise(text, lowered);
  }

  lemma ExampleJoin(collapsed: string)
    requires collapsed == "my" + ("-" + ("first" + ("-" + ("blog" + ("-" + ("post" + ("-" + "hey")))))))
    ensures collapsed == "my-first-blog-post-hey"
  {
  }

  lemma ExampleStrip(s: string)
    requires s == "my-first-blog-post-hey"
    ensures Strip(s) == s
  {
  }

  lemma ExampleCollapse(w1: string, w2: string, w3: string, w4: string, w5: string, sp: string, bang: string)
    requires w1 == "my" && w2 == "first" && w3 == "blog" && w4 == "post" && w5 == "hey"
    requires sp == " " && bang == "! "
    ensures Collapse(w1 + (sp + (w2 + (sp + (w3 + (sp + (w4 + (bang + w5))))))))
         == w1 + ("-" + (w2 + ("-" + (w3 + ("-" + (w4 + ("-" + w5)))))))
  {
    CollapseWord(w5, []);
    assert w5 + [] == w5;
    CollapseSeparator(bang, w5);
    CollapseWord(w4, bang + w5);
    CollapseSeparator(sp, w4 + (bang + w5));
    CollapseWord(w3, sp + (w4 + (bang + w5)));
    CollapseSeparator(sp, w3 + (sp + (w4 + (bang + w5))));
    CollapseWord(w2, sp + (w3 + (sp + (w4 + (bang + w5)))));
    CollapseSeparator(sp, w2 + (sp + (w3 + (sp + (w4 + (bang + w5))))));
    CollapseWord(w1, sp + (w2 + (sp + (w3 + (sp + (w4 + (bang + w5)))))));
  }
}
