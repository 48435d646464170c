/** Removal of markdown code-fence decoration from the generative model's
    raw reply before it is parsed as JSON (app.py:59-63, repeated at
    app.py:131-135). */
module ResponseCleaner {

  import opened PyStr

  const Fence := "```"

  /** The arguments of the three `lstrip` calls of the opening branch. */
  const Backtick := Chars("`")
  const TagChars := Chars("json")
  const Newline := Chars("\n")

  /** The opening-fence branch: `c.lstrip('`').lstrip('json').lstrip('\n').strip()`. */
  function OpenFence(c: string): string {
    Strip(LStrip(LStrip(LStrip(c, Backtick), TagChars), Newline), Whitespace)
  }

  /** The closing-fence branch: `c[:c.rfind('```')].strip()`. */
  function CloseFence(c: string): string {
    Strip(SliceTo(c, RFind(c, Fence)), Whitespace)
  }

  /** `if cleaned.startswith('```'): cleaned = <opening branch>` */
  function OpenStep(c: string): string {
    if StartsWith(c, Fence) then OpenFence(c) else c
  }

  /** `if cleaned.endswith('```'): cleaned = <closing branch>` */
  function CloseStep(c: string): string {
    if EndsWith(c, Fence) then CloseFence(c) else c
  }

  /** The cleaned reply: trimmed, then the opening fence and its tag taken
      off when the trimmed text starts with a fence, then everything from
      the last fence on cut off when the text ends with one. Every path
      ends in a strip, so the result never has whitespace at either end,
      and it is a contiguous piece of the raw reply. */
  function Clean(raw: string): (r: string)
    ensures Trimmed(r)
    ensures exists i :: OccursAt(r, raw, i)
  {
    var c0 := Strip(raw, Whitespace);
    var c1 := OpenStep(c0);
    var r := CloseStep(c1);
    OpenStepIsInfix(c0);
    CloseStepIsInfix(c1);
    InfixChain(r, c1, c0, raw);
    StripIsTrimmed(raw);
    OpenStepIsTrimmed(c0);
    CloseStepIsTrimmed(c1);
    r
  }

  /** No whitespace at either end. */
  predicate Trimmed(s: string) {
    s == [] || (!IsSpace(s[0]) && !IsSpace(s[|s| - 1]))
  }

  lemma StripIsTrimmed(s: string)
    ensures Trimmed(Strip(s, Whitespace))
  {
  }

  lemma OpenStepIsTrimmed(c: string)
    requires Trimmed(c)
    ensures Trimmed(OpenStep(c))
  {
    if StartsWith(c, Fence) {
      StripIsTrimmed(LStrip(LStrip(LStrip(c, Backtick), TagChars), Newline));
    }
  }

  lemma CloseStepIsTrimmed(c: string)
    requires Trimmed(c)
    ensures Trimmed(CloseStep(c))
  {
    if EndsWith(c, Fence) {
      StripIsTrimmed(SliceTo(c, RFind(c, Fence)));
    }
  }

  lemma InfixChain(r: string, c1: string, c0: string, raw: string)
    requires exists i :: OccursAt(r, c1, i)
    requires exists i :: OccursAt(c1, c0, i)
    requires exists i :: OccursAt(c0, raw, i)
    ensures exists i :: OccursAt(r, raw, i)
  {
    var i :| OccursAt(r, c1, i);
    var j :| OccursAt(c1, c0, j);
    var k :| OccursAt(c0, raw, k);
    OccursWithin(r, c1, c0, i, j);
    OccursWithin(r, c0, raw, i + j, k);
  }

  lemma OpenStepIsInfix(c: string)
    ensures exists i :: OccursAt(OpenStep(c), c, i)
  {
    if StartsWith(c, Fence) {
      OpenFenceIsInfix(c);
      var j :| OccursAt(OpenFence(c), c, j);
      assert OccursAt(OpenStep(c), c, j);
    } else {
      OccursInItself(c);
      assert OpenStep(c) == c;
      assert OccursAt(OpenStep(c), c, 0);
    }
  }

  lemma CloseStepIsInfix(c: string)
    ensures exists i :: OccursAt(CloseStep(c), c, i)
  {
    if EndsWith(c, Fence) {
      CloseFenceIsInfix(c);
      var j :| OccursAt(CloseFence(c), c, j);
      assert OccursAt(CloseStep(c), c, j);
    } else {
      OccursInItself(c);
      assert CloseStep(c) == c;
      assert OccursAt(CloseStep(c), c, 0);
    }
  }

  /** A suffix cut by `lstrip` of an infix is an infix. */
  lemma LStripIsInfix(s: string, sc: StripChars, t: string)
    requires exists i :: OccursAt(s, t, i)
    ensures exists i :: OccursAt(LStrip(s, sc), t, i)
  {
    var i :| OccursAt(s, t, i);
    OccursWithin(LStrip(s, sc), s, t, |s| - |LStrip(s, sc)|, i);
  }

  /** What `strip` leaves of an infix is an infix. */
  lemma StripIsInfix(s: string, sc: StripChars, t: string)
    requires exists i :: OccursAt(s, t, i)
    ensures exists i :: OccursAt(Strip(s, sc), t, i)
  {
    var i :| OccursAt(s, t, i);
    var j :| OccursAt(Strip(s, sc), s, j) && AllStripped(sc, s[..j]) && AllStripped(sc, s[j + |Strip(s, sc)|..]);
    OccursWithin(Strip(s, sc), s, t, j, i);
  }

  lemma OpenFenceIsInfix(c: string)
    ensures exists i :: OccursAt(OpenFence(c), c, i)
  {
    var t1 := LStrip(c, Backtick);
    var t2 := LStrip(t1, TagChars);
    var t3 := LStrip(t2, Newline);
    OccursInItself(c);
    LStripIsInfix(c, Backtick, c);
    LStripIsInfix(t1, TagChars, c);
    LStripIsInfix(t2, Newline, c);
    StripIsInfix(t3, Whitespace, c);
    var j :| OccursAt(Strip(t3, Whitespace), c, j);
    assert OpenFence(c) == Strip(t3, Whitespace);
    assert OccursAt(OpenFence(c), c, j);
  }

  lemma CloseFenceIsInfix(c: string)
    ensures exists i :: OccursAt(CloseFence(c), c, i)
  {
    var p := SliceTo(c, RFind(c, Fence));
    assert OccursAt(p, c, 0);
    StripIsInfix(p, Whitespace, c);
    var j :| OccursAt(Strip(p, Whitespace), c, j);
    assert OccursAt(CloseFence(c), c, j);
  }

  /** A reply that, once trimmed, neither starts nor ends with a fence is
      only trimmed. */
  lemma CleanWithoutFences(raw: string)
    requires !StartsWith(Strip(raw, Whitespace), Fence)
    requires !EndsWith(Strip(raw, Whitespace), Fence)
    ensures Clean(raw) == Strip(raw, Whitespace)
  {
  }

  /** The opening branch removes, in this order: the whole run of
      backticks (not just three), the whole following run of the
      characters j, s, o and n (a character set, not the word "json"),
      the whole following run of newlines, and then whitespace at both
      ends of what is left. */
  lemma OpenFenceSteps(c: string)
    ensures exists a, b, d ::
      && MaxRun(c, 0, a, Backtick)
      && MaxRun(c, a, b, TagChars)
      && MaxRun(c, b, d, Newline)
      && OpenFence(c) == Strip(c[d..], Whitespace)
  {
    var t1 := LStrip(c, Backtick);
    var t2 := LStrip(t1, TagChars);
    var t3 := LStrip(t2, Newline);
    assert c[0..] == c;
    var a := LStripRun(c, 0, Backtick);
    var b := LStripRun(c, a, TagChars);
    var d := LStripRun(c, b, Newline);
    assert OpenFence(c) == Strip(c[d..], Whitespace);
  }

  /** `lstrip` applied to the suffix of `s` from `lo` removes exactly the
      run of stripped characters that starts at `lo`. */
  lemma LStripRun(s: string, lo: int, sc: StripChars) returns (hi: int)
    requires 0 <= lo <= |s|
    ensures MaxRun(s, lo, hi, sc) && LStrip(s[lo..], sc) == s[hi..]
  {
    var t := s[lo..];
    var r := LStrip(t, sc);
    hi := |s| - |r|;
    assert s[hi..] == r;
    assert s[lo..hi] == t[..|t| - |r|];
  }

  /** When the text ends with a fence, its last fence is that final one:
      the closing branch drops exactly the last three characters and
      trims what is left. */
  lemma CloseFenceDropsLastFence(c: string)
    requires EndsWith(c, Fence)
    ensures CloseFence(c) == Strip(c[..|c| - |Fence|], Whitespace)
  {
    RFindOfSuffix(c, Fence);
    assert SliceTo(c, RFind(c, Fence)) == c[..|c| - |Fence|];
  }

  /** `strip()` leaves a text without whitespace at its ends unchanged. */
  lemma StripOfTrimmed(s: string)
    requires Trimmed(s)
    ensures Strip(s, Whitespace) == s
  {
    if s != [] {
      assert KeptFrom(s, Whitespace, 0) == 0;
      assert LStrip(s, Whitespace) == s;
      assert KeptUntil(s, Whitespace, |s|) == |s|;
    }
  }

  /** The reply shape the prompt asks for: a fence tagged json around
      the object, closed by a fence. */
  lemma CleanTaggedBlock()
    ensures Clean("```json\n{}\n```") == "{}"
  {
    StripOfTrimmed("```json\n{}\n```");
    TaggedBlockOpens();
    TaggedBlockCloses();
  }

  lemma TaggedBlockOpens()
    ensures OpenStep("```json\n{}\n```") == "{}\n```"
  {
    var raw := "```json\n{}\n```";
    assert StartsWith(raw, Fence);
    assert KeptFrom(raw, Backtick, 3) == 3;
    assert KeptFrom(raw, Backtick, 0) == 3;
    var t1 := "json\n{}\n```";
    assert LStrip(raw, Backtick) == t1;
    TaggedBlockBody();
  }

  lemma TaggedBlockBody()
    ensures Strip(LStrip(LStrip("json\n{}\n```", TagChars), Newline), Whitespace) == "{}\n```"
  {
    var t1 := "json\n{}\n```";
    assert KeptFrom(t1, TagChars, 4) == 4;
    assert KeptFrom(t1, TagChars, 0) == 4;
    var t2 := "\n{}\n```";
    assert LStrip(t1, TagChars) == t2;
    assert KeptFrom(t2, Newline, 1) == 1;
    assert KeptFrom(t2, Newline, 0) == 1;
    var t3 := "{}\n```";
    assert LStrip(t2, Newline) == t3;
    StripOfTrimmed(t3);
  }

  lemma TaggedBlockCloses()
    ensures CloseStep("{}\n```") == "{}"
  {
    var c := "{}\n```";
    assert EndsWith(c, Fence);
    RFindOfSuffix(c, Fence);
    assert SliceTo(c, RFind(c, Fence)) == "{}\n";
    assert KeptUntil("{}\n", Whitespace, 2) == 2;
    assert RStrip("{}\n", Whitespace) == "{}";
    assert Strip("{}\n", Whitespace) == "{}";
  }

  /** The tag is stripped as a set of characters: after an untagged
      fence, content starting with j, s, o or n loses those characters. */
  lemma CleanEatsTagCharacters()
    ensures Clean("```null```") == "ull"
  {
    StripOfTrimmed("```null```");
    UntaggedBlockOpens();
    UntaggedBlockCloses();
  }

  lemma UntaggedBlockOpens()
    ensures OpenStep("```null```") == "ull```"
  {
    var raw := "```null```";
    assert StartsWith(raw, Fence);
    assert KeptFrom(raw, Backtick, 3) == 3;
    assert KeptFrom(raw, Backtick, 0) == 3;
    var t1 := "null```";
    assert LStrip(raw, Backtick) == t1;
    assert KeptFrom(t1, TagChars, 1) == 1;
    assert KeptFrom(t1, TagChars, 0) == 1;
    var t2 := "ull```";
    assert LStrip(t1, TagChars) == t2;
    assert KeptFrom(t2, Newline, 0) == 0;
    assert LStrip(t2, Newline) == t2;
    StripOfTrimmed(t2);
  }

  lemma UntaggedBlockCloses()
    ensures CloseStep("ull```") == "ull"
  {
    var c := "ull```";
    assert EndsWith(c, Fence);
    RFindOfSuffix(c, Fence);
    assert SliceTo(c, RFind(c, Fence)) == "ull";
    StripOfTrimmed("ull");
  }
}
