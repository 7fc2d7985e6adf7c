/** The string operations the managed file writer relies on: `str.find`, `str.rstrip`,
    `str.lstrip("\n")` and the newline translation of a text-mode read. */
module NotesText {

  predicate OccursAt(text: string, pat: string, i: int) {
    0 <= i <= |text| - |pat| && text[i..i + |pat|] == pat
  }

  ghost predicate Contains(text: string, pat: string) {
    exists i :: OccursAt(text, pat, i)
  }

  /** Python's `text.find(pat)`: the least position of an occurrence, or -1. */
  function Find(text: string, pat: string): (idx: int)
    ensures idx == -1 <==> !Contains(text, pat)
    ensures idx != -1 ==> OccursAt(text, pat, idx) && forall i :: 0 <= i < idx ==> !OccursAt(text, pat, i)
  {
    FindFrom(text, pat, 0)
  }

  function FindFrom(text: string, pat: string, start: nat): (idx: int)
    ensures idx == -1 ==> forall i :: start <= i ==> !OccursAt(text, pat, i)
    ensures idx != -1 ==> start <= idx && OccursAt(text, pat, idx)
    ensures idx != -1 ==> forall i :: start <= i < idx ==> !OccursAt(text, pat, i)
    decreases |text| - start
  {
    if start + |pat| > |text| then -1
    else if OccursAt(text, pat, start) then start
    else FindFrom(text, pat, start + 1)
  }

  /** The characters for which Python's `str.isspace` holds. */
  predicate IsSpace(c: char) {
    var n := c as int;
    || 0x9 <= n <= 0xD || 0x1C <= n <= 0x20 || n == 0x85 || n == 0xA0 || n == 0x1680
    || 0x2000 <= n <= 0x200A || n == 0x2028 || n == 0x2029 || n == 0x202F || n == 0x205F || n == 0x3000
  }

  function RStrip(s: string): (r: string)
    ensures r <= s
    ensures r != "" ==> !IsSpace(r[|r| - 1])
    ensures forall k :: |r| <= k < |s| ==> IsSpace(s[k])
  {
    if s != "" && IsSpace(s[|s| - 1]) then RStrip(s[..|s| - 1]) else s
  }

  function LStripNewlines(s: string): (r: string)
    ensures |r| <= |s|
    ensures r != "" ==> r[0] != '\n'
    ensures forall c :: c in r ==> c in s
  {
    if s != "" && s[0] == '\n' then LStripNewlines(s[1..]) else s
  }

  /** What a text-mode read does: "\r\n" and a lone "\r" both arrive as "\n". */
  function UniversalNewlines(s: string): (r: string)
    ensures '\r' !in r
  {
    if s == "" then ""
    else if s[0] != '\r' then [s[0]] + UniversalNewlines(s[1..])
    else if |s| > 1 && s[1] == '\n' then "\n" + UniversalNewlines(s[2..])
    else "\n" + UniversalNewlines(s[1..])
  }

  // ----- newline translation

  lemma {:induction false} UniversalNewlinesIdentityIff(s: string)
    ensures UniversalNewlines(s) == s <==> '\r' !in s
  {
    if s == "" {
    } else if s[0] != '\r' {
      UniversalNewlinesIdentityIff(s[1..]);
      assert s == [s[0]] + s[1..];
      if UniversalNewlines(s) == s {
        assert UniversalNewlines(s)[1..] == s[1..];
      }
    }
  }

  lemma TranslateNothing()
    ensures UniversalNewlines("") == ""
  {
  }

  lemma TranslateFirst(s: string)
    requires s != ""
    ensures UniversalNewlines(s) ==
      if s[0] != '\r' then [s[0]] + UniversalNewlines(s[1..])
      else "\n" + UniversalNewlines(if |s| > 1 && s[1] == '\n' then s[2..] else s[1..])
  {
  }

  /** Translation is piecewise unless the cut goes through a "\r\n". */
  lemma {:induction false} UniversalNewlinesAppend(a: string, b: string)
    requires a != "" && a[|a| - 1] == '\r' ==> b == "" || b[0] != '\n'
    ensures UniversalNewlines(a + b) == UniversalNewlines(a) + UniversalNewlines(b)
  {
    hide UniversalNewlines;
    if a == "" {
      TranslateNothing();
      assert a + b == b && "" + UniversalNewlines(b) == UniversalNewlines(b);
    } else {
      TranslateFirst(a);
      TranslateFirst(a + b);
      var k := if a[0] == '\r' && |a| > 1 && a[1] == '\n' then 2 else 1;
      assert (a + b)[k..] == a[k..] + b;
      UniversalNewlinesAppend(a[k..], b);
      Reassociate(if a[0] == '\r' then "\n" else [a[0]], UniversalNewlines(a[k..]), UniversalNewlines(b));
    }
  }

  lemma TranslateReturn(b: string)
    ensures UniversalNewlines("\r\n" + b) == "\n" + UniversalNewlines(b)
    ensures !("\n" <= b) ==> UniversalNewlines("\r" + b) == "\n" + UniversalNewlines(b)
  {
    hide UniversalNewlines;
    TranslateFirst("\r\n" + b);
    TranslateFirst("\r" + b);
    assert ("\r\n" + b)[2..] == b && ("\r" + b)[1..] == b;
  }

  lemma Reassociate(a: string, b: string, c: string)
    ensures a + b + c == a + (b + c)
  {
  }

  /** Translation, told by the first carriage return of a text: what stands before it stays, it
      becomes one line feed, alone or together with a line feed behind it. */
  lemma TranslationMeaning(a: string, b: string)
    requires '\r' !in a
    ensures UniversalNewlines(a) == a
    ensures UniversalNewlines(a + "\r\n" + b) == a + "\n" + UniversalNewlines(b)
    ensures !("\n" <= b) ==> UniversalNewlines(a + "\r" + b) == a + "\n" + UniversalNewlines(b)
  {
    hide UniversalNewlines;
    UniversalNewlinesIdentityIff(a);
    UniversalNewlinesAppend(a, "\r\n" + b);
    UniversalNewlinesAppend(a, "\r" + b);
    TranslateReturn(b);
    Reassociate(a, "\r\n", b);
    Reassociate(a, "\r", b);
    Reassociate(a, "\n", UniversalNewlines(b));
  }

  predicate NewlineFree(pat: string) {
    '\r' !in pat && '\n' !in pat
  }

  lemma {:induction false} PrefixSurvivesTranslation(s: string, pat: string)
    requires NewlineFree(pat)
    ensures pat <= UniversalNewlines(s) <==> pat <= s
  {
    if pat != "" && s != "" && s[0] != '\r' {
      PrefixSurvivesTranslation(s[1..], pat[1..]);
      var u := UniversalNewlines(s);
      assert u[1..] == UniversalNewlines(s[1..]);
      assert pat == [pat[0]] + pat[1..] && u == [u[0]] + u[1..] && s == [s[0]] + s[1..];
    }
  }

  lemma PrefixIsFirstOccurrence(s: string, pat: string)
    ensures pat <= s <==> OccursAt(s, pat, 0)
  {
    if |pat| <= |s| {
      assert s[0..|pat|] == s[..|pat|];
    }
  }

  lemma OccursInTail(s: string, pat: string, i: nat)
    requires s != ""
    ensures OccursAt(s, pat, i + 1) <==> OccursAt(s[1..], pat, i)
  {
    if i + 1 + |pat| <= |s| {
      assert s[i + 1..i + 1 + |pat|] == s[1..][i..i + |pat|];
    }
  }

  lemma ContainsUnfold(s: string, pat: string)
    requires pat != ""
    ensures Contains(s, pat) <==> pat <= s || (s != "" && Contains(s[1..], pat))
  {
    PrefixIsFirstOccurrence(s, pat);
    if s != "" && Contains(s[1..], pat) {
      var i :| OccursAt(s[1..], pat, i);
      OccursInTail(s, pat, i);
    }
    if Contains(s, pat) {
      var i :| OccursAt(s, pat, i);
      if i > 0 {
        OccursInTail(s, pat, i - 1);
      }
    }
  }

  /** A line-internal pattern is found after translation exactly when it was there before. */
  lemma {:induction false} ContainsSurvivesTranslation(s: string, pat: string)
    requires NewlineFree(pat) && pat != ""
    ensures Contains(UniversalNewlines(s), pat) <==> Contains(s, pat)
  {
    ContainsUnfold(s, pat);
    ContainsUnfold(UniversalNewlines(s), pat);
    PrefixSurvivesTranslation(s, pat);
    if s != "" {
      var u := UniversalNewlines(s);
      if s[0] == '\r' && |s| > 1 && s[1] == '\n' {
        ContainsUnfold(s[1..], pat);
        assert s[1..][1..] == s[2..];
        ContainsSurvivesTranslation(s[2..], pat);
        assert u[1..] == UniversalNewlines(s[2..]);
      } else {
        ContainsSurvivesTranslation(s[1..], pat);
        assert u[1..] == UniversalNewlines(s[1..]);
      }
    }
  }

  lemma {:induction false} LStripOfAppendKeepsSuffix(a: string, b: string)
    requires b != "" && b[0] != '\n'
    ensures |LStripNewlines(a + b)| >= |b|
  {
    if a == "" {
      assert a + b == b;
    } else if a[0] == '\n' {
      assert (a + b)[1..] == a[1..] + b;
      LStripOfAppendKeepsSuffix(a[1..], b);
    }
  }

  // ----- separators

  /** What the proofs need to know of a separator line: it lies within one line and ends in ink. */
  predicate IsSeparator(sep: string) {
    NewlineFree(sep) && sep != "" && !IsSpace(sep[|sep| - 1])
  }

  /** Stripping trailing blanks cannot make or destroy a separator. */
  lemma RStripKeepsSeparator(s: string, sep: string)
    requires IsSeparator(sep)
    ensures Contains(RStrip(s), sep) <==> Contains(s, sep)
  {
    var r := RStrip(s);
    if Contains(r, sep) {
      var i :| OccursAt(r, sep, i);
      assert OccursAt(s, sep, i) by { assert s[i..i + |sep|] == r[i..i + |sep|]; }
    }
    if Contains(s, sep) {
      var i :| OccursAt(s, sep, i);
      assert s[i + |sep| - 1] == s[i..i + |sep|][|sep| - 1];
      assert r[i..i + |sep|] == s[i..i + |sep|];
      assert OccursAt(r, sep, i);
    }
  }

  lemma OccurrenceCharacters(text: string, pat: string, i: int)
    requires OccursAt(text, pat, i)
    ensures forall pos :: i <= pos < i + |pat| ==> text[pos] in pat
  {
    assert forall pos :: i <= pos < i + |pat| ==> text[pos] == text[i..i + |pat|][pos - i];
  }

  /** A separator cannot straddle the blank line in front of the appended one. */
  lemma OccurrenceBeforeBlankLine(head: string, rest: string, sep: string, i: int)
    requires IsSeparator(sep)
    requires 0 <= i < |head| + 2 && OccursAt(head + "\n\n" + rest, sep, i)
    ensures OccursAt(head, sep, i)
  {
    var text := head + "\n\n" + rest;
    OccurrenceCharacters(text, sep, i);
    var pos := if i <= |head| then |head| else i;
    assert text[pos] == '\n';
    assert head[i..i + |sep|] == text[i..i + |sep|];
  }

  /** In `head`, a blank line, the separator, ...: the appended separator is the first one
      exactly when `head` holds none itself. */
  lemma AppendedSeparatorIsFirst(head: string, sep: string, tail: string)
    requires IsSeparator(sep)
    ensures Find(head + "\n\n" + (sep + tail), sep) == |head| + 2 <==> !Contains(head, sep)
    ensures Contains(head + "\n\n" + (sep + tail), sep)
    ensures Contains(head, sep) ==> Find(head + "\n\n" + (sep + tail), sep) <= |head| - |sep|
  {
    var text := head + "\n\n" + (sep + tail);
    var k := |head| + 2;
    assert text[k..k + |sep|] == sep;
    assert OccursAt(text, sep, k);
    forall i | 0 <= i < k && OccursAt(text, sep, i) ensures OccursAt(head, sep, i) {
      OccurrenceBeforeBlankLine(head, sep + tail, sep, i);
    }
    if Contains(head, sep) {
      var i :| OccursAt(head, sep, i);
      assert text[i..i + |sep|] == head[i..i + |sep|];
      assert OccursAt(text, sep, i);
    }
  }
}
