/** `ManagedFileWriter` of the vault daemon: regenerate the text above the sentinel, carry
    the user's notes below it through every rewrite, and leave an unchanged file alone.
    This module is the sequential contract of one `write`; WriterProtocol interleaves threads. */
module ManagedFileWriter {
  import opened NotesText
  import opened Wrappers

  type Path = string

  /** The sentinel line and the text a file without notes starts from. */
  datatype Format = Format(sentinel: string, placeholder: string) {
    predicate Valid() {
      IsSeparator(sentinel) && '\r' !in placeholder
    }
  }

  const NOTES_SENTINEL: string := "## \U{1F4DD} Notes"
  const INVITATION: string := "> Add your own notes below this line "
  const PROMISE: string := "\U{2014} the daemon never touches this section."
  const DEFAULT_NOTES: string := "\n" + INVITATION + PROMISE + "\n"
  const VAULT: Format := Format(NOTES_SENTINEL, DEFAULT_NOTES)

  lemma InvitationHasNoCarriageReturn()
    ensures '\r' !in INVITATION
  {
  }

  lemma PromiseHasNoCarriageReturn()
    ensures '\r' !in PROMISE
  {
  }

  /** The daemon's own constants meet the assumptions of every lemma below. */
  lemma VaultFormatIsValid()
    ensures VAULT.Valid()
    ensures LStripNewlines(VAULT.placeholder) != VAULT.placeholder
  {
    InvitationHasNoCarriageReturn();
    PromiseHasNoCarriageReturn();
    hide INVITATION, PROMISE;
    assert VAULT.placeholder[0] == '\n';
  }

  /** What `_extract_user_notes` returns for a file holding `file` (None: no such file). */
  function ExtractUserNotes(f: Format, file: Option<string>): string {
    match file
    case None => f.placeholder
    case Some(raw) => NotesOf(f, UniversalNewlines(raw))
  }

  function NotesOf(f: Format, text: string): string {
    var idx := Find(text, f.sentinel);
    if idx == -1 then f.placeholder else LStripNewlines(text[idx + |f.sentinel|..])
  }

  function FullContent(f: Format, body: string, notes: string): string {
    RStrip(body) + "\n\n" + f.sentinel + "\n" + notes
  }

  /** The file one call of `write` leaves, and the value it returns. */
  function WriteFile(f: Format, file: Option<string>, body: string): (Option<string>, bool) {
    var full := FullContent(f, body, ExtractUserNotes(f, file));
    if file.Some? && UniversalNewlines(file.value) == full then (file, false) else (Some(full), true)
  }

  /** The user's notes up to the leading newlines that the writer may strip. */
  function VisibleNotes(f: Format, file: Option<string>): string {
    LStripNewlines(ExtractUserNotes(f, file))
  }

  predicate HasSentinel(f: Format, file: Option<string>) {
    file.Some? && Find(UniversalNewlines(file.value), f.sentinel) != -1
  }

  function WriteTimes(f: Format, file: Option<string>, body: string, n: nat): Option<string> {
    if n == 0 then file else WriteFile(f, WriteTimes(f, file, body, n - 1), body).0
  }

  /** The return value of the n-th (from 0) of a series of writes of the same body. */
  function ReturnOf(f: Format, file: Option<string>, body: string, n: nat): bool {
    WriteFile(f, WriteTimes(f, file, body, n), body).1
  }

  // ----- one write

  lemma ExtractionHasNoCarriageReturn(f: Format, file: Option<string>)
    requires f.Valid()
    ensures '\r' !in ExtractUserNotes(f, file)
  {
    if HasSentinel(f, file) {
      var text := UniversalNewlines(file.value);
      var tail := text[Find(text, f.sentinel) + |f.sentinel|..];
      assert forall c :: c in LStripNewlines(tail) ==> c in tail && c in text;
    }
  }

  lemma LStripIdempotent(s: string)
    ensures LStripNewlines(LStripNewlines(s)) == LStripNewlines(s)
  {
    var r := LStripNewlines(s);
    assert r == "" || r[0] != '\n';
  }

  lemma LStripOfNewline(s: string)
    ensures LStripNewlines("\n" + s) == LStripNewlines(s)
  {
    assert ("\n" + s)[1..] == s;
  }

  /** Reading back what was written changes line ends in the body only. */
  lemma ReadBack(f: Format, body: string, notes: string)
    requires f.Valid() && '\r' !in notes
    ensures UniversalNewlines(FullContent(f, body, notes))
         == UniversalNewlines(RStrip(body)) + "\n\n" + (f.sentinel + ("\n" + notes))
    ensures Contains(UniversalNewlines(RStrip(body)), f.sentinel) <==> Contains(body, f.sentinel)
  {
    hide UniversalNewlines, RStrip, Find, FindFrom;
    var head, rest := RStrip(body), "\n\n" + (f.sentinel + ("\n" + notes));
    assert FullContent(f, body, notes) == head + rest;
    UniversalNewlinesAppend(head, rest);
    UniversalNewlinesIdentityIff(rest);
    ContainsSurvivesTranslation(head, f.sentinel);
    RStripKeepsSeparator(body, f.sentinel);
    assert UniversalNewlines(head) + rest == UniversalNewlines(head) + "\n\n" + (f.sentinel + ("\n" + notes));
  }

  lemma TailAfterSentinel(head: string, sep: string, tail: string)
    ensures (head + (sep + tail))[|head| + |sep|..] == tail
  {
    DropFromConcat(head, sep + tail, |head| + |sep|);
    DropFromConcat(sep, tail, |sep|);
  }

  /** A sentinel that ends before the appended one leaves that one in what counts as notes. */
  lemma NotesAfterEarlySentinel(f: Format, head: string, tail: string, idx: nat)
    requires f.Valid() && tail != "" && idx + |f.sentinel| <= |head|
    ensures var text := head + "\n\n" + (f.sentinel + tail);
      |LStripNewlines(text[idx + |f.sentinel|..])| >= |f.sentinel| + |tail|
  {
    hide LStripNewlines;
    var k := idx + |f.sentinel|;
    DropFromConcat(head + "\n\n", f.sentinel + tail, k);
    LStripOfAppendKeepsSuffix((head + "\n\n")[k..], f.sentinel + tail);
  }

  /** What an extraction finds behind the first sentinel of a rewritten text. */
  lemma NotesBehindBody(f: Format, head: string, notes: string)
    requires f.Valid()
    ensures var text := head + "\n\n" + (f.sentinel + ("\n" + notes));
      && Contains(text, f.sentinel)
      && (!Contains(head, f.sentinel) ==> NotesOf(f, text) == LStripNewlines(notes))
      && (Contains(head, f.sentinel) ==> |NotesOf(f, text)| > |notes| + |f.sentinel|)
  {
    hide LStripNewlines, Contains, Find, NotesOf;
    var tail := "\n" + notes;
    AppendedSeparatorIsFirst(head, f.sentinel, tail);
    NotesOfSplit(f, head + "\n\n" + (f.sentinel + tail));
    if Contains(head, f.sentinel) {
      NotesAfterEarlySentinel(f, head, tail, Find(head + "\n\n" + (f.sentinel + tail), f.sentinel));
    } else {
      TailAfterSentinel(head + "\n\n", f.sentinel, tail);
      LStripOfNewline(notes);
    }
  }

  lemma NotesOfSplit(f: Format, text: string)
    requires Contains(text, f.sentinel)
    ensures NotesOf(f, text) == LStripNewlines(text[Find(text, f.sentinel) + |f.sentinel|..])
  {
  }

  lemma DropFromConcat(a: string, b: string, k: nat)
    requires k <= |a| + |b|
    ensures (a + b)[k..] == if k <= |a| then a[k..] + b else b[k - |a|..]
  {
  }

  /** What the next extraction finds in a freshly written file. */
  lemma NotesAfterRewrite(f: Format, body: string, notes: string)
    requires f.Valid() && '\r' !in notes
    ensures HasSentinel(f, Some(FullContent(f, body, notes)))
    ensures var again := ExtractUserNotes(f, Some(FullContent(f, body, notes)));
      if Contains(body, f.sentinel) then |again| > |notes| + |f.sentinel| else again == LStripNewlines(notes)
  {
    hide UniversalNewlines, RStrip, LStripNewlines, FullContent, NotesOf;
    ReadBack(f, body, notes);
    NotesBehindBody(f, UniversalNewlines(RStrip(body)), notes);
  }

  /** A write that reports "no change" has met its own output. */
  lemma NoRewriteMeansFixpoint(f: Format, file: Option<string>, body: string)
    requires f.Valid() && !WriteFile(f, file, body).1
    ensures HasSentinel(f, file)
    ensures !Contains(body, f.sentinel) && '\r' !in RStrip(body)
  {
    var notes := ExtractUserNotes(f, file);
    var full := FullContent(f, body, notes);
    ExtractionHasNoCarriageReturn(f, file);
    assert forall k :: 0 <= k < |RStrip(body)| ==> full[k] == RStrip(body)[k] && full[k] in full;
    UniversalNewlinesIdentityIff(full);
    NotesAfterRewrite(f, body, notes);
    assert ExtractUserNotes(f, file) == ExtractUserNotes(f, Some(full));
  }

  /** With a sentinel in the body, the notes read back are strictly longer than those that went in. */
  lemma SentinelBodyIsNeverStable(f: Format, file: Option<string>, body: string)
    requires f.Valid() && Contains(body, f.sentinel)
    ensures WriteFile(f, file, body).1
    ensures |VisibleNotes(f, WriteFile(f, file, body).0)| > |ExtractUserNotes(f, file)| + |f.sentinel|
  {
    if !WriteFile(f, file, body).1 {
      NoRewriteMeansFixpoint(f, file, body);
      assert false;
    }
    var notes := ExtractUserNotes(f, file);
    ExtractionHasNoCarriageReturn(f, file);
    NotesAfterRewrite(f, body, notes);
    var text := UniversalNewlines(FullContent(f, body, notes));
    LStripIdempotent(text[Find(text, f.sentinel) + |f.sentinel|..]);
  }

  /** The file after one write of a sentinel-free body, in terms of the notes it had. */
  lemma CleanWrite(f: Format, file: Option<string>, body: string)
    requires f.Valid() && !Contains(body, f.sentinel)
    ensures var next := WriteFile(f, file, body).0;
      && HasSentinel(f, next)
      && ExtractUserNotes(f, next) == VisibleNotes(f, file)
      && VisibleNotes(f, next) == VisibleNotes(f, file)
      && ('\r' !in RStrip(body) ==> UniversalNewlines(next.value) == FullContent(f, body, ExtractUserNotes(f, file)))
  {
    hide UniversalNewlines, RStrip, Find, FindFrom, LStripNewlines;
    var notes := ExtractUserNotes(f, file);
    ExtractionHasNoCarriageReturn(f, file);
    NotesAfterRewrite(f, body, notes);
    LStripIdempotent(notes);
    ReadBack(f, body, notes);
    UniversalNewlinesIdentityIff(RStrip(body));
    if !WriteFile(f, file, body).1 {
      NoRewriteMeansFixpoint(f, file, body);
      UniversalNewlinesIdentityIff(FullContent(f, body, notes));
    }
  }

  /** What stands above the first sentinel after a clean write: the generated body without its
      trailing blanks, then one empty line; and below it a line break and the notes. */
  lemma BodyIsRegenerated(f: Format, file: Option<string>, body: string)
    requires f.Valid() && !Contains(body, f.sentinel)
    ensures var text := UniversalNewlines(WriteFile(f, file, body).0.value);
      var idx := Find(text, f.sentinel);
      && idx >= 0 && text[..idx] == UniversalNewlines(RStrip(body)) + "\n\n"
      && text[idx + |f.sentinel|..] == "\n" + ExtractUserNotes(f, file)
  {
    hide UniversalNewlines, RStrip, Find, FullContent, ExtractUserNotes, WriteFile;
    var notes := ExtractUserNotes(f, file);
    ExtractionHasNoCarriageReturn(f, file);
    WrittenText(f, file, body);
    ReadBack(f, body, notes);
    SplitAtSentinel(UniversalNewlines(RStrip(body)), f.sentinel, "\n" + notes);
  }

  /** The file after a write, read back, is the assembled text, whether or not it was rewritten. */
  lemma WrittenText(f: Format, file: Option<string>, body: string)
    ensures WriteFile(f, file, body).0.Some?
    ensures UniversalNewlines(WriteFile(f, file, body).0.value) ==
      UniversalNewlines(FullContent(f, body, ExtractUserNotes(f, file)))
  {
    hide UniversalNewlines, FullContent, ExtractUserNotes;
    if !WriteFile(f, file, body).1 {
      UniversalNewlinesIdempotent(file.value);
    }
  }

  lemma SplitAtSentinel(head: string, sep: string, tail: string)
    requires IsSeparator(sep) && !Contains(head, sep)
    ensures var text := head + "\n\n" + (sep + tail);
      var idx := Find(text, sep);
      0 <= idx && idx + |sep| <= |text| && text[..idx] == head + "\n\n" && text[idx + |sep|..] == tail
  {
    hide Find, Contains;
    AppendedSeparatorIsFirst(head, sep, tail);
    DropFromConcat(head + "\n\n", sep + tail, |head| + 2 + |sep|);
    DropFromConcat(sep, tail, |sep|);
  }

  lemma UniversalNewlinesIdempotent(s: string)
    ensures UniversalNewlines(UniversalNewlines(s)) == UniversalNewlines(s)
  {
    UniversalNewlinesIdentityIff(UniversalNewlines(s));
  }

  /** One write keeps the user's notes exactly when the generated body holds no sentinel. */
  lemma NotesPreservedIff(f: Format, file: Option<string>, body: string)
    requires f.Valid()
    ensures VisibleNotes(f, WriteFile(f, file, body).0) == VisibleNotes(f, file) <==> !Contains(body, f.sentinel)
  {
    if Contains(body, f.sentinel) {
      SentinelBodyIsNeverStable(f, file, body);
    } else {
      CleanWrite(f, file, body);
    }
  }

  // ----- the section itself, as it stands in the file

  /** Everything below the first sentinel of a file, character by character. */
  function Section(f: Format, raw: string): string
    requires Contains(raw, f.sentinel)
  {
    raw[Find(raw, f.sentinel) + |f.sentinel|..]
  }

  /** What stands above the first sentinel of a file. */
  function Head(f: Format, raw: string): string
    requires Contains(raw, f.sentinel)
  {
    raw[..Find(raw, f.sentinel)]
  }

  /** The sections the writer can carry over as they are: no carriage return, one line break in
      front, and none behind it. */
  predicate Portable(section: string) {
    '\r' !in section && section != "" && section[0] == '\n' && (|section| > 1 ==> section[1] != '\n')
  }

  /** What the writer puts below the sentinel in place of a section. */
  function Rewritten(section: string): string {
    "\n" + LStripNewlines(UniversalNewlines(section))
  }

  lemma RewrittenIsSameIff(section: string)
    ensures Rewritten(section) == section <==> Portable(section)
    ensures Portable(Rewritten(section))
  {
    var u := UniversalNewlines(section);
    var r := LStripNewlines(u);
    assert forall c :: c in r ==> c in u;
    UniversalNewlinesIdentityIff(section);
    if Portable(section) {
      assert u == section == ['\n'] + section[1..];
      assert r == LStripNewlines(section[1..]) == section[1..];
    }
  }

  /** Splitting a text at the first sentinel and translating its line ends commute. */
  lemma SplitCommutesWithTranslation(f: Format, raw: string)
    requires f.Valid() && Contains(raw, f.sentinel)
    ensures Contains(UniversalNewlines(raw), f.sentinel)
    ensures Section(f, UniversalNewlines(raw)) == UniversalNewlines(Section(f, raw))
    ensures var head, section := UniversalNewlines(Head(f, raw)), UniversalNewlines(Section(f, raw));
      && UniversalNewlines(raw) == head + (f.sentinel + section)
      && Find(UniversalNewlines(raw), f.sentinel) == |head|
  {
    hide UniversalNewlines, Find, FindFrom, Contains;
    var idx, n := Find(raw, f.sentinel), |f.sentinel|;
    var head, section := raw[..idx], Section(f, raw);
    SplitAround(raw, f.sentinel, idx);
    TranslateAround(head, f.sentinel, section);
    TranslateAround(head, f.sentinel[..n - 1], "");
    NoneBeforeTheFirst(raw, f.sentinel, idx);
    ContainsSurvivesTranslation(head + f.sentinel[..n - 1], f.sentinel);
    FirstAfter(UniversalNewlines(head), f.sentinel, UniversalNewlines(section));
  }

  lemma SplitAround(raw: string, sep: string, idx: nat)
    requires sep != "" && OccursAt(raw, sep, idx)
    ensures raw == raw[..idx] + (sep + raw[idx + |sep|..])
    ensures raw[..idx + |sep| - 1] == raw[..idx] + sep[..|sep| - 1]
  {
    assert raw[idx..idx + |sep|] == sep;
  }

  /** A piece of the sentinel line is not touched by translation, nor is what surrounds it. */
  lemma TranslateAround(head: string, piece: string, tail: string)
    requires NewlineFree(piece)
    requires piece == "" ==> tail == ""
    ensures UniversalNewlines(head + (piece + tail)) == UniversalNewlines(head) + (piece + UniversalNewlines(tail))
    ensures UniversalNewlines("") == ""
    ensures tail == "" ==> UniversalNewlines(head + piece) == UniversalNewlines(head) + piece
  {
    hide UniversalNewlines;
    UniversalNewlinesAppend(head, piece + tail);
    UniversalNewlinesAppend(piece, tail);
    UniversalNewlinesIdentityIff(piece);
    TranslateNothing();
    assert tail == "" ==> piece + tail == piece;
  }

  /** The first occurrence leaves none in what ends one character before its own end. */
  lemma NoneBeforeTheFirst(raw: string, sep: string, idx: nat)
    requires sep != "" && idx == Find(raw, sep) && idx + |sep| <= |raw|
    ensures !Contains(raw[..idx + |sep| - 1], sep)
  {
    var near := raw[..idx + |sep| - 1];
    forall i ensures !OccursAt(near, sep, i) {
      if 0 <= i <= |near| - |sep| {
        assert near[i..i + |sep|] == raw[i..i + |sep|];
        assert !OccursAt(raw, sep, i);
      }
    }
  }

  lemma FirstAfter(head: string, sep: string, tail: string)
    requires sep != "" && !Contains(head + sep[..|sep| - 1], sep)
    ensures var text := head + (sep + tail);
      Contains(text, sep) && Find(text, sep) == |head| && text[|head| + |sep|..] == tail
  {
    var text, near := head + (sep + tail), head + sep[..|sep| - 1];
    assert text[|head|..|head| + |sep|] == sep;
    assert OccursAt(text, sep, |head|);
    forall i | 0 <= i < |head| ensures !OccursAt(text, sep, i) {
      assert near == text[..|near|];
      assert near[i..i + |sep|] == text[i..i + |sep|];
      assert !OccursAt(near, sep, i);
    }
    TailAfterSentinel(head, sep, tail);
  }

  lemma NotesAreStrippedSection(f: Format, raw: string)
    requires f.Valid() && Contains(raw, f.sentinel)
    ensures ExtractUserNotes(f, Some(raw)) == LStripNewlines(UniversalNewlines(Section(f, raw)))
  {
    hide UniversalNewlines, Find, FindFrom, Contains, LStripNewlines;
    SplitCommutesWithTranslation(f, raw);
    NotesOfSplit(f, UniversalNewlines(raw));
  }

  lemma SectionOfText(f: Format, body: string, tail: string)
    requires f.Valid() && !Contains(body, f.sentinel)
    ensures var text := RStrip(body) + "\n\n" + (f.sentinel + tail);
      Contains(text, f.sentinel) && Section(f, text) == tail
  {
    hide RStrip, Find, FindFrom, Contains;
    RStripKeepsSeparator(body, f.sentinel);
    AppendedSeparatorIsFirst(RStrip(body), f.sentinel, tail);
    SplitAtSentinel(RStrip(body), f.sentinel, tail);
  }

  /** What one sentinel-free write does to the section of a file: nothing if it leaves the file
      alone; otherwise one line break, then the old section without carriage returns and
      without the line breaks it began with. */
  lemma SectionAfterWrite(f: Format, raw: string, body: string)
    requires f.Valid() && Contains(raw, f.sentinel) && !Contains(body, f.sentinel)
    ensures var (next, changed) := WriteFile(f, Some(raw), body);
      && next.Some? && Contains(next.value, f.sentinel)
      && Section(f, next.value) == if changed then Rewritten(Section(f, raw)) else Section(f, raw)
  {
    hide UniversalNewlines, RStrip, Find, LStripNewlines, Contains, Section;
    NotesAreStrippedSection(f, raw);
    if WriteFile(f, Some(raw), body).1 {
      var head, tail := RStrip(body), Rewritten(Section(f, raw));
      SectionOfText(f, body, tail);
      assert FullContent(f, body, ExtractUserNotes(f, Some(raw))) == head + "\n\n" + (f.sentinel + tail);
    }
  }

  /** A file that is absent or holds no sentinel, whatever else it holds, gets the default text
      below the sentinel: nothing of the old text is taken for notes. */
  lemma DefaultTextBelowSentinel(f: Format, file: Option<string>, body: string)
    requires f.Valid() && !Contains(body, f.sentinel)
    requires file.Some? ==> !Contains(file.value, f.sentinel)
    ensures var (next, changed) := WriteFile(f, file, body);
      && changed && next.Some? && Contains(next.value, f.sentinel)
      && Section(f, next.value) == "\n" + f.placeholder
  {
    hide UniversalNewlines, RStrip, Find, FindFrom, LStripNewlines, Contains, Section;
    if file.Some? {
      ContainsSurvivesTranslation(file.value, f.sentinel);
    }
    assert ExtractUserNotes(f, file) == f.placeholder;
    var head, tail := RStrip(body), "\n" + f.placeholder;
    SectionOfText(f, body, tail);
    assert FullContent(f, body, f.placeholder) == head + "\n\n" + (f.sentinel + tail);
    if !WriteFile(f, file, body).1 {
      NoRewriteMeansFixpoint(f, file, body);
    }
  }

  /** A sentinel-free write leaves a file alone, and returns False, exactly when the file holds
      the sentinel, line ends apart has the stripped body and one empty line above it, and
      begins its section with exactly one line break. */
  lemma LeftAloneIff(f: Format, file: Option<string>, body: string)
    requires f.Valid() && !Contains(body, f.sentinel)
    ensures !WriteFile(f, file, body).1 <==>
      && file.Some? && Contains(file.value, f.sentinel)
      && UniversalNewlines(Head(f, file.value)) == RStrip(body) + "\n\n"
      && Portable(UniversalNewlines(Section(f, file.value)))
    ensures !WriteFile(f, file, body).1 ==> WriteFile(f, file, body).0 == file
  {
    hide UniversalNewlines, RStrip, Find, FindFrom, LStripNewlines, Contains, Portable, Rewritten;
    if file.Some? && Contains(file.value, f.sentinel) {
      var raw := file.value;
      var section, head := UniversalNewlines(Section(f, raw)), UniversalNewlines(Head(f, raw));
      SplitCommutesWithTranslation(f, raw);
      RewrittenIsSameIff(section);
      AssembledText(f, raw, body);
      EqualSplitsIff(f.sentinel, head, section, RStrip(body) + "\n\n", Rewritten(section));
    } else {
      DefaultTextBelowSentinel(f, file, body);
    }
  }

  /** What a sentinel-free write puts together over a file with a sentinel. */
  lemma AssembledText(f: Format, raw: string, body: string)
    requires f.Valid() && !Contains(body, f.sentinel) && Contains(raw, f.sentinel)
    ensures var tail := Rewritten(UniversalNewlines(Section(f, raw)));
      var full := FullContent(f, body, ExtractUserNotes(f, Some(raw)));
      && full == RStrip(body) + "\n\n" + (f.sentinel + tail)
      && Find(full, f.sentinel) == |RStrip(body) + "\n\n"|
  {
    hide UniversalNewlines, RStrip, Find, FindFrom, LStripNewlines, Contains;
    NotesAreStrippedSection(f, raw);
    UniversalNewlinesIdempotent(Section(f, raw));
    RStripKeepsSeparator(body, f.sentinel);
    AppendedSeparatorIsFirst(RStrip(body), f.sentinel, Rewritten(UniversalNewlines(Section(f, raw))));
  }

  /** Two texts whose first sentinel stands right behind their heads. */
  lemma EqualSplitsIff(sep: string, a: string, s: string, b: string, t: string)
    requires Find(a + (sep + s), sep) == |a| && Find(b + (sep + t), sep) == |b|
    ensures a + (sep + s) == b + (sep + t) <==> a == b && s == t
  {
    hide Find;
    if a + (sep + s) == b + (sep + t) {
      assert (a + (sep + s))[..|a|] == a && (b + (sep + t))[..|b|] == b;
      TailAfterSentinel(a, sep, s);
      TailAfterSentinel(b, sep, t);
    }
  }

  /** A character that makes no sentinel and survives stripping. */
  function Mark(f: Format): (c: char)
    requires f.Valid()
    ensures !IsSpace(c) && c != f.sentinel[|f.sentinel| - 1]
  {
    if f.sentinel[|f.sentinel| - 1] == 'a' then 'b' else 'a'
  }

  lemma MarkIsNoSentinel(f: Format)
    requires f.Valid()
    ensures !Contains([Mark(f)], f.sentinel) && !Contains("", f.sentinel)
  {
    forall i ensures !OccursAt([Mark(f)], f.sentinel, i) && !OccursAt("", f.sentinel, i) {
      if i == 0 && |f.sentinel| == 1 {
        assert [Mark(f)][0..1][0] != f.sentinel[0];
      }
    }
  }

  /** Over any file one of two sentinel-free bodies forces a rewrite. */
  lemma SomeBodyRewrites(f: Format, raw: string) returns (body: string)
    requires f.Valid()
    ensures !Contains(body, f.sentinel) && WriteFile(f, Some(raw), body).1
  {
    MarkIsNoSentinel(f);
    var notes := ExtractUserNotes(f, Some(raw));
    assert RStrip("") == "" && RStrip([Mark(f)]) == [Mark(f)];
    assert |FullContent(f, "", notes)| != |FullContent(f, [Mark(f)], notes)|;
    body := if WriteFile(f, Some(raw), "").1 then "" else [Mark(f)];
  }

  /** The writer's promise to copy the section "unchanged, forever": a file keeps its section,
      character by character, under every sentinel-free write exactly when the section holds no
      carriage return and begins with exactly one line break. */
  lemma SectionKeptIff(f: Format, raw: string)
    requires f.Valid() && Contains(raw, f.sentinel)
    ensures (forall body | !Contains(body, f.sentinel) :: KeepsSection(f, raw, body)) <==> Portable(Section(f, raw))
  {
    hide Contains, WriteFile, Rewritten, Portable, Section;
    RewrittenIsSameIff(Section(f, raw));
    if Portable(Section(f, raw)) {
      forall body | !Contains(body, f.sentinel) ensures KeepsSection(f, raw, body) {
        SectionAfterWrite(f, raw, body);
      }
    } else {
      var body := SomeBodyRewrites(f, raw);
      SectionAfterWrite(f, raw, body);
      assert !KeepsSection(f, raw, body);
    }
  }

  ghost predicate KeepsSection(f: Format, raw: string, body: string)
    requires Contains(raw, f.sentinel)
  {
    var next := WriteFile(f, Some(raw), body).0;
    next.Some? && Contains(next.value, f.sentinel) && Section(f, next.value) == Section(f, raw)
  }

  /** A loss happens at most once: what a rewrite leaves below the sentinel is kept from then on. */
  lemma RewriteMakesPortable(f: Format, raw: string, body: string)
    requires f.Valid() && Contains(raw, f.sentinel) && !Contains(body, f.sentinel) && WriteFile(f, Some(raw), body).1
    ensures var next := WriteFile(f, Some(raw), body).0;
      next.Some? && Contains(next.value, f.sentinel) && Portable(Section(f, next.value))
  {
    SectionAfterWrite(f, raw, body);
    RewrittenIsSameIff(Section(f, raw));
  }

  /** A file that is nothing but the sentinel and a section. */
  lemma SectionOnly(f: Format, section: string)
    requires f.Valid()
    ensures Contains(f.sentinel + section, f.sentinel) && Section(f, f.sentinel + section) == section
    ensures WriteFile(f, Some(f.sentinel + section), "").1
  {
    hide UniversalNewlines, FindFrom, ExtractUserNotes;
    var raw := f.sentinel + section;
    assert raw[0..|f.sentinel|] == f.sentinel;
    assert OccursAt(raw, f.sentinel, 0);
    assert Find(raw, f.sentinel) == 0;
    TranslateAround("", f.sentinel, section);
    assert "" + (f.sentinel + section) == raw;
    assert "" + (f.sentinel + UniversalNewlines(section)) == f.sentinel + UniversalNewlines(section);
    assert FullContent(f, "", ExtractUserNotes(f, Some(raw)))[0] == '\n';
    assert UniversalNewlines(raw)[0] == f.sentinel[0];
  }

  /** An empty line at the head of the user's section is lost. */
  lemma EmptyLineIsLost(f: Format)
    requires f.Valid()
    ensures var raw := f.sentinel + "\n\n- a";
      var next := WriteFile(f, Some(raw), "").0;
      && Contains(raw, f.sentinel) && Section(f, raw) == "\n\n- a"
      && next.Some? && Contains(next.value, f.sentinel) && Section(f, next.value) == "\n- a"
  {
    hide WriteFile, Contains, Section, UniversalNewlines;
    SectionOnly(f, "\n\n- a");
    MarkIsNoSentinel(f);
    SectionAfterWrite(f, f.sentinel + "\n\n- a", "");
    UniversalNewlinesIdentityIff("\n\n- a");
    LStripOfNewline("\n- a");
    LStripOfNewline("- a");
    assert "\n" + "\n- a" == "\n\n- a" && "\n" + "- a" == "\n- a";
  }

  /** A section saved with carriage returns loses them. */
  lemma CarriageReturnIsLost(f: Format)
    requires f.Valid()
    ensures var raw := f.sentinel + "\r\n- a";
      var next := WriteFile(f, Some(raw), "").0;
      && Contains(raw, f.sentinel) && Section(f, raw) == "\r\n- a"
      && next.Some? && Contains(next.value, f.sentinel) && Section(f, next.value) == "\n- a"
  {
    hide WriteFile, Contains, Section, UniversalNewlines;
    SectionOnly(f, "\r\n- a");
    MarkIsNoSentinel(f);
    SectionAfterWrite(f, f.sentinel + "\r\n- a", "");
    TranslateFirst("\r\n- a");
    UniversalNewlinesIdentityIff("- a");
    LStripOfNewline("- a");
    assert "\r\n- a"[2..] == "- a" && "\n" + "- a" == "\n- a";
  }

  // ----- repeated writes of one body

  /** Whether the second write of a clean body is a rewrite is decided by the notes alone. */
  lemma SecondWrite(f: Format, file: Option<string>, body: string)
    requires f.Valid() && !Contains(body, f.sentinel) && '\r' !in RStrip(body)
    ensures WriteFile(f, WriteFile(f, file, body).0, body).1 <==> VisibleNotes(f, file) != ExtractUserNotes(f, file)
  {
    CleanWrite(f, file, body);
    var notes := ExtractUserNotes(f, file);
    var prefix := RStrip(body) + "\n\n" + f.sentinel + "\n";
    assert FullContent(f, body, notes)[|prefix|..] == notes;
    assert FullContent(f, body, VisibleNotes(f, file))[|prefix|..] == VisibleNotes(f, file);
  }

  /** A body without sentinel and without carriage returns: over a file that had a sentinel
      only the first write can touch the disk; over any other file exactly the first two do. */
  lemma {:induction false} RepeatedWritesSettle(f: Format, file: Option<string>, body: string, n: nat)
    requires f.Valid() && LStripNewlines(f.placeholder) != f.placeholder
    requires !Contains(body, f.sentinel) && '\r' !in RStrip(body)
    ensures HasSentinel(f, file) && n >= 1 ==> !ReturnOf(f, file, body, n)
    ensures !HasSentinel(f, file) ==> (ReturnOf(f, file, body, n) <==> n < 2)
    ensures n >= 1 ==> ExtractUserNotes(f, WriteTimes(f, file, body, n)) == VisibleNotes(f, file)
  {
    hide UniversalNewlines, RStrip, Find, FindFrom, LStripNewlines, FullContent;
    if n == 0 {
      if !ReturnOf(f, file, body, 0) {
        NoRewriteMeansFixpoint(f, file, body);
      }
    } else {
      var prev := WriteTimes(f, file, body, n - 1);
      RepeatedWritesSettle(f, file, body, n - 1);
      CleanWrite(f, prev, body);
      SecondWrite(f, prev, body);
      LStripIdempotent(ExtractUserNotes(f, file));
      if n == 1 && HasSentinel(f, file) {
        var text := UniversalNewlines(file.value);
        LStripIdempotent(text[Find(text, f.sentinel) + |f.sentinel|..]);
      }
    }
  }

  /** Repeating a write ever reports "no change" exactly when the body carries neither the
      sentinel nor a carriage return that the next read would translate. */
  lemma SettlesIff(f: Format, file: Option<string>, body: string)
    requires f.Valid() && LStripNewlines(f.placeholder) != f.placeholder
    ensures (exists n :: !ReturnOf(f, file, body, n)) <==> !Contains(body, f.sentinel) && '\r' !in RStrip(body)
  {
    if !Contains(body, f.sentinel) && '\r' !in RStrip(body) {
      RepeatedWritesSettle(f, file, body, 2);
      assert !ReturnOf(f, file, body, 2);
    }
    if n :| !ReturnOf(f, file, body, n) {
      NoRewriteMeansFixpoint(f, WriteTimes(f, file, body, n), body);
    }
  }

  lemma SentinelBodyGrowth(f: Format, file: Option<string>, body: string)
    requires f.Valid() && Contains(body, f.sentinel)
    ensures |VisibleNotes(f, WriteFile(f, file, body).0)| >= |VisibleNotes(f, file)| + |f.sentinel| + 1
  {
    SentinelBodyIsNeverStable(f, file, body);
  }

  /** With a sentinel in the body the user's section grows on every write, without end. */
  lemma {:induction false} SentinelBodyGrowsForever(f: Format, file: Option<string>, body: string, n: nat)
    requires f.Valid() && Contains(body, f.sentinel)
    ensures |VisibleNotes(f, WriteTimes(f, file, body, n))| >= |VisibleNotes(f, file)| + n * (|f.sentinel| + 1)
  {
    hide VisibleNotes, WriteFile, Contains;
    if n >= 1 {
      var prev := WriteTimes(f, file, body, n - 1);
      SentinelBodyGrowsForever(f, file, body, n - 1);
      SentinelBodyGrowth(f, prev, body);
      calc {
        n * (|f.sentinel| + 1);
        (n - 1) * (|f.sentinel| + 1) + (|f.sentinel| + 1);
      }
    }
  }

  // ----- the class

  class Lock {
    var held: bool

    constructor ()
      ensures !held
    {
      held := false;
    }
  }

  class Disk {
    var files: map<Path, string>

    constructor ()
      ensures files == map[]
    {
      files := map[];
    }

    function Get(path: Path): Option<string>
      reads this
    {
      if path in files then Some(files[path]) else None
    }

    method WriteText(path: Path, text: string)
      modifies this
      ensures files == old(files)[path := text]
    {
      files := files[path := text];
    }

    /** The POSIX rename: `to` takes over the content in one step. */
    method Replace(from: Path, to: Path)
      requires from in files && from != to
      modifies this
      ensures files == (old(files) - {from})[to := old(files)[from]]
    {
      files := (files - {from})[to := files[from]];
    }
  }

  class Writer {
    const format: Format
    const disk: Disk
    var locks: map<Path, Lock>

    /** Between calls every lock is free and no two paths share one. */
    ghost predicate Valid()
      reads this, locks.Values
    {
      && (forall p :: p in locks ==> !locks[p].held)
      && (forall p, q :: p in locks && q in locks && p != q ==> locks[p] != locks[q])
    }

    constructor (format: Format, disk: Disk)
      ensures this.format == format && this.disk == disk && locks == map[] && Valid()
    {
      this.format := format;
      this.disk := disk;
      locks := map[];
    }

    /** The one lock of a path, created on first use. */
    method LockFor(path: Path) returns (lock: Lock)
      requires Valid()
      modifies this`locks
      ensures Valid()
      ensures path in locks && lock == locks[path]
      ensures if path in old(locks) then locks == old(locks) else locks == old(locks)[path := lock] && fresh(lock)
    {
      if path !in locks {
        var l := new Lock();
        locks := locks[path := l];
      }
      lock := locks[path];
    }

    /** The read half of `write`: the decoded file, if any, and the notes to carry over. */
    method ReadNotes(path: Path) returns (existing: Option<string>, notes: string)
      ensures existing == if path in disk.files then Some(UniversalNewlines(disk.files[path])) else None
      ensures notes == ExtractUserNotes(format, disk.Get(path))
    {
      hide UniversalNewlines, Find, LStripNewlines;
      existing, notes := None, format.placeholder;
      if path in disk.files {
        var text := UniversalNewlines(disk.files[path]);
        var idx := Find(text, format.sentinel);
        existing := Some(text);
        if idx != -1 {
          notes := LStripNewlines(text[idx + |format.sentinel|..]);
        }
      }
    }

    /** The critical section of `write`: read, compare, temporary file, rename. */
    method Rewrite(path: Path, body: string) returns (changed: bool)
      modifies disk
      ensures changed == WriteFile(format, old(disk.Get(path)), body).1
      ensures disk.files == if !changed then old(disk.files) else
        (old(disk.files) - {path + ".tmp"})[path := WriteFile(format, old(disk.Get(path)), body).0.value]
    {
      var existing, notes := ReadNotes(path);
      hide UniversalNewlines, FullContent, ExtractUserNotes;
      var full := FullContent(format, body, notes);
      changed := existing != Some(full);
      assert WriteFile(format, disk.Get(path), body) == if changed then (Some(full), true) else (disk.Get(path), false);
      if changed {
        disk.WriteText(path + ".tmp", full);
        disk.Replace(path + ".tmp", path);
      }
    }

    method Write(path: Path, body: string) returns (changed: bool)
      requires Valid()
      modifies this`locks, disk, locks.Values
      ensures Valid()
      ensures locks.Keys == old(locks).Keys + {path}
      ensures forall p :: p in old(locks) ==> locks[p] == old(locks)[p]
      ensures changed == WriteFile(format, old(disk.Get(path)), body).1
      ensures disk.files == if !changed then old(disk.files) else
        (old(disk.files) - {path + ".tmp"})[path := WriteFile(format, old(disk.Get(path)), body).0.value]
    {
      hide WriteFile;
      var lock := LockFor(path);
      lock.held := true;
      changed := Rewrite(path, body);
      lock.held := false;
    }
  }
}
