/**
 * The Localizable.strings merge script: a parser that turns the file's
 * lines into entries (a comment block followed by one `"key" = "value";`
 * line), a merge that keeps the new file's keys and order but reuses the
 * old translations, and the serialiser that writes entries back.
 *
 * The file is given as the lines `readline` returns, and reading past the
 * last line gives "" (the end-of-file mark the script tests for). The
 * reader's properties need only that no line is empty (`ReadlineLines`);
 * `Lines` is the split `readline` makes of a whole text, each line keeping
 * its line boundary, and the save/read round trip goes through it.
 */
module Localize {
  import opened Wrappers
  import opened LocalizeSyntax

  /** One entry: its comment lines, its translation line and the key and value captured from it. */
  datatype LocalizedString = LocalizedString(
    comments: seq<string>,
    translation: string,
    key: string,
    value: string)

  /** `LocalizedString(comments, translation)`; None where the source fails on a non-matching line. */
  function NewLocalizedString(comments: seq<string>, translation: string): (r: Option<LocalizedString>)
    ensures r.Some? <==> MatchTranslation(translation).Some?
    ensures r.Some? ==>
      && r.value.comments == comments && r.value.translation == translation
      && MatchTranslation(translation) == Some(KeyValue(r.value.key, r.value.value))
  {
    match MatchTranslation(translation)
    case None => None
    case Some(kv) => Some(LocalizedString(comments, translation, kv.key, kv.value))
  }

  // ---------------------------------------------------------------------
  // Reading

  /** Lines as `readline` yields them: none is empty before the end of the file. */
  predicate ReadlineLines(lines: seq<string>) {
    forall k | 0 <= k < |lines| :: lines[k] != ""
  }

  /** The `i`-th `readline()`: the line, or "" past the end. */
  function ReadLine(lines: seq<string>, i: nat): string {
    if i < |lines| then lines[i] else ""
  }

  /** The lines read by the `readline()` calls `from` up to (not including) `to`. */
  function ReadLines(lines: seq<string>, from: nat, to: nat): (r: seq<string>)
    requires from <= to
    ensures |r| == to - from
    ensures forall k | 0 <= k < |r| :: r[k] == ReadLine(lines, from + k)
  {
    seq(to - from, k requires 0 <= k < to - from => ReadLine(lines, from + k))
  }

  /** Reading one more line appends it. */
  lemma ReadLinesSnoc(lines: seq<string>, from: nat, to: nat)
    requires from <= to
    ensures ReadLines(lines, from, to + 1) == ReadLines(lines, from, to) + [ReadLine(lines, to)]
  {
  }

  /** `while line and line == '\n': line = f.readline()`, from line `i`: the first line that is not blank. */
  function SkipBlankLines(lines: seq<string>, i: nat): (j: nat)
    decreases |lines| - i
    ensures i <= j && ReadLine(lines, j) != "\n"
  {
    if ReadLine(lines, i) == "\n" then SkipBlankLines(lines, i + 1) else i
  }

  /** One step of skipping blank lines. */
  lemma SkipBlankStep(lines: seq<string>, i: nat)
    ensures ReadLine(lines, i) == "\n" ==> SkipBlankLines(lines, i) == SkipBlankLines(lines, i + 1)
    ensures ReadLine(lines, i) != "\n" ==> SkipBlankLines(lines, i) == i
  {
  }

  /** Every line skipped is blank. */
  lemma {:induction false} SkipBlankLinesSkipsBlanks(lines: seq<string>, i: nat)
    decreases |lines| - i
    ensures forall k | i <= k < SkipBlankLines(lines, i) :: ReadLine(lines, k) == "\n"
  {
    SkipBlankStep(lines, i);
    if ReadLine(lines, i) == "\n" {
      SkipBlankLinesSkipsBlanks(lines, i + 1);
    }
  }

  /** `while line and not re_comment_end.match(line)`, from line `i`: the line that ends the block. */
  function CommentBlockEnd(lines: seq<string>, i: nat): (j: nat)
    decreases |lines| - i
    ensures i <= j
  {
    var line := ReadLine(lines, i);
    if line != "" && !IsCommentEnd(line) then CommentBlockEnd(lines, i + 1) else i
  }

  /** One step of the comment block search. */
  lemma CommentBlockEndStep(lines: seq<string>, i: nat)
    ensures ReadLine(lines, i) != "" && !IsCommentEnd(ReadLine(lines, i)) ==> CommentBlockEnd(lines, i) == CommentBlockEnd(lines, i + 1)
    ensures ReadLine(lines, i) == "" || IsCommentEnd(ReadLine(lines, i)) ==> CommentBlockEnd(lines, i) == i
  {
  }

  /** The search stops at the end of the file or at the first line that closes a comment, and passes only lines that do not. */
  lemma {:induction false} CommentBlockEndStops(lines: seq<string>, i: nat)
    decreases |lines| - i
    ensures var j := CommentBlockEnd(lines, i);
      && (ReadLine(lines, j) == "" || IsCommentEnd(ReadLine(lines, j)))
      && forall k | i <= k < j :: ReadLine(lines, k) != "" && !IsCommentEnd(ReadLine(lines, k))
  {
    CommentBlockEndStep(lines, i);
    var line := ReadLine(lines, i);
    if line != "" && !IsCommentEnd(line) {
      CommentBlockEndStops(lines, i + 1);
    }
  }

  /** The last line of the comment block that starts at line `i`. */
  function BlockEnd(lines: seq<string>, i: nat): nat {
    if IsSingleLineComment(ReadLine(lines, i)) then i else CommentBlockEnd(lines, i)
  }

  /** What reading yields: the entries read, and the error that stopped it, if any. */
  datatype Parsed = Parsed(entries: seq<LocalizedString>, error: Option<string>)

  /** The translation line after the comment block that starts at line `i`. */
  function TranslationAt(lines: seq<string>, i: nat): string {
    ReadLine(lines, BlockEnd(lines, i) + 1)
  }

  /**
   * The entry whose comment block starts at line `i`, or None when the line
   * after the block is not a translation line (the end-of-file mark "" is not
   * one either).
   */
  function EntryAt(lines: seq<string>, i: nat): Option<LocalizedString> {
    NewLocalizedString(ReadLines(lines, i, BlockEnd(lines, i) + 1), TranslationAt(lines, i))
  }

  /** Where the next entry starts: past the translation line and the blank lines after it. */
  function NextStart(lines: seq<string>, i: nat): (j: nat)
    ensures j > i
  {
    SkipBlankLines(lines, BlockEnd(lines, i) + 2)
  }

  /** An entry is made of the block's lines and the line after it. */
  lemma EntryAtParts(lines: seq<string>, i: nat)
    ensures var last := BlockEnd(lines, i);
      && TranslationAt(lines, i) == ReadLine(lines, last + 1)
      && EntryAt(lines, i) == NewLocalizedString(ReadLines(lines, i, last + 1), ReadLine(lines, last + 1))
  {
  }

  lemma NextStartParts(lines: seq<string>, i: nat)
    ensures NextStart(lines, i) == SkipBlankLines(lines, BlockEnd(lines, i) + 2)
  {
  }

  /** The main loop of `read_from_file`, from line `i` (a line that is not blank). */
  function ParseFrom(lines: seq<string>, i: nat): Parsed
    decreases |lines| - i
  {
    if ReadLine(lines, i) == "" then Parsed([], None)
    else match EntryAt(lines, i)
      case None => Parsed([], Some("invalid file: " + TranslationAt(lines, i)))
      case Some(e) =>
        var rest := ParseFrom(lines, NextStart(lines, i));
        Parsed([e] + rest.entries, rest.error)
  }

  lemma ParseFromStep(lines: seq<string>, i: nat)
    requires ReadLine(lines, i) != "" && EntryAt(lines, i).Some?
    ensures ParseFrom(lines, i).entries == [EntryAt(lines, i).value] + ParseFrom(lines, NextStart(lines, i)).entries
    ensures ParseFrom(lines, i).error == ParseFrom(lines, NextStart(lines, i)).error
  {
  }

  lemma ParseFromFails(lines: seq<string>, i: nat)
    requires ReadLine(lines, i) != "" && EntryAt(lines, i).None?
    ensures ParseFrom(lines, i) == Parsed([], Some("invalid file: " + TranslationAt(lines, i)))
  {
  }

  /** What is still to be read shrinks by one entry while that entry joins what has been read. */
  lemma ReadStep(lines: seq<string>, i: nat, read: seq<LocalizedString>, d: map<string, LocalizedString>,
                 all: seq<LocalizedString>, allD: map<string, LocalizedString>)
    requires ReadLine(lines, i) != "" && EntryAt(lines, i).Some?
    requires all == read + ParseFrom(lines, i).entries
    requires allD == IndexByKey(d, ParseFrom(lines, i).entries)
    ensures var e := EntryAt(lines, i).value;
      var rest := ParseFrom(lines, NextStart(lines, i));
      && all == (read + [e]) + rest.entries
      && allD == IndexByKey(d[e.key := e], rest.entries)
      && ParseFrom(lines, i).error == rest.error
  {
    var e := EntryAt(lines, i).value;
    var rest := ParseFrom(lines, NextStart(lines, i));
    ParseFromStep(lines, i);
    assert ([e] + rest.entries)[1..] == rest.entries;
  }

  /** `read_from_file`: skip the leading blank lines, then read entries. */
  function Parse(lines: seq<string>): Parsed {
    ParseFrom(lines, SkipBlankLines(lines, 0))
  }

  /**
   * A comment block as the reader delimits it: a single-line comment alone,
   * or every line up to and including the first one that closes a block
   * comment. Its first line is not blank and no line is empty.
   */
  predicate WellFormedBlock(cs: seq<string>) {
    && |cs| >= 1
    && cs[0] != "\n"
    && (forall k | 0 <= k < |cs| :: cs[k] != "")
    && (IsSingleLineComment(cs[0]) ==> |cs| == 1)
    && (!IsSingleLineComment(cs[0]) ==>
          && IsCommentEnd(cs[|cs| - 1])
          && forall k | 0 <= k < |cs| - 1 :: !IsCommentEnd(cs[k]))
  }

  /** A well-delimited block followed by a translation line whose groups are the entry's key and value. */
  predicate WellFormedEntry(e: LocalizedString) {
    WellFormedBlock(e.comments) && MatchTranslation(e.translation) == Some(KeyValue(e.key, e.value))
  }

  /** Inside the file, the lines read are the file's own lines. */
  lemma ReadLinesInside(lines: seq<string>, from: nat, to: nat)
    requires from <= to <= |lines|
    ensures ReadLines(lines, from, to) == lines[from..to]
  {
  }

  /** The comment block search from `i` stops at the first line closing a comment, when every line before it is present. */
  lemma {:induction false} CommentBlockEndAt(lines: seq<string>, i: nat, last: nat)
    requires i <= last
    requires forall k | i <= k < last :: ReadLine(lines, k) != "" && !IsCommentEnd(ReadLine(lines, k))
    requires IsCommentEnd(ReadLine(lines, last))
    decreases last - i
    ensures CommentBlockEnd(lines, i) == last
  {
    CommentBlockEndStep(lines, i);
    if i < last {
      CommentBlockEndAt(lines, i + 1, last);
    }
  }

  /** A single-line comment is a block by itself. */
  lemma SingleLineBlockSound(lines: seq<string>, i: nat)
    requires i < |lines| && lines[i] != "" && lines[i] != "\n" && IsSingleLineComment(lines[i])
    ensures BlockEnd(lines, i) == i
    ensures WellFormedBlock(lines[i..i + 1])
  {
    assert ReadLine(lines, i) == lines[i];
    assert lines[i..i + 1] == [lines[i]];
  }

  /** Lines `i` to `j` form a block when only the last of them closes a comment. */
  lemma ClosedBlockSound(lines: seq<string>, i: nat, j: nat)
    requires ReadlineLines(lines)
    requires i <= j < |lines|
    requires lines[i] != "\n" && !IsSingleLineComment(lines[i])
    requires IsCommentEnd(lines[j])
    requires forall k | i <= k < j :: !IsCommentEnd(lines[k])
    ensures WellFormedBlock(lines[i..j + 1])
  {
    var cs := lines[i..j + 1];
    forall k | 0 <= k < |cs| ensures cs[k] == lines[i + k] { }
  }

  /** The comment block search, when a line follows the block, stops at a line that closes a comment and passes none. */
  lemma CommentBlockEndCloses(lines: seq<string>, i: nat)
    requires ReadlineLines(lines)
    requires CommentBlockEnd(lines, i) < |lines|
    ensures IsCommentEnd(lines[CommentBlockEnd(lines, i)])
    ensures forall k | i <= k < CommentBlockEnd(lines, i) :: !IsCommentEnd(lines[k])
  {
    var last := CommentBlockEnd(lines, i);
    CommentBlockEndStops(lines, i);
    assert ReadLine(lines, last) == lines[last];
    forall k | i <= k < last ensures !IsCommentEnd(lines[k]) {
      assert ReadLine(lines, k) == lines[k];
    }
  }

  /** Any other block ends where the comment block search stops. */
  lemma MultiLineBlockEnd(lines: seq<string>, i: nat)
    requires i < |lines| && !IsSingleLineComment(lines[i])
    ensures BlockEnd(lines, i) == CommentBlockEnd(lines, i)
  {
    assert ReadLine(lines, i) == lines[i];
  }

  /** The block the reader delimits at line `i`, when a line follows it, is well formed. */
  lemma BlockSound(lines: seq<string>, i: nat)
    requires ReadlineLines(lines)
    requires i < |lines| && lines[i] != "\n"
    requires BlockEnd(lines, i) + 1 < |lines|
    ensures WellFormedBlock(lines[i..BlockEnd(lines, i) + 1])
  {
    var last := BlockEnd(lines, i);
    if IsSingleLineComment(lines[i]) {
      SingleLineBlockSound(lines, i);
    } else {
      MultiLineBlockEnd(lines, i);
      CommentBlockEndCloses(lines, i);
      ClosedBlockSound(lines, i, last);
    }
  }

  /** Every entry the reader produces is well formed. */
  lemma {:induction false} ParseFromSound(lines: seq<string>, i: nat)
    requires ReadlineLines(lines)
    requires ReadLine(lines, i) != "\n"
    decreases |lines| - i
    ensures forall e | e in ParseFrom(lines, i).entries :: WellFormedEntry(e)
  {
    if ReadLine(lines, i) != "" {
      var entry := EntryAt(lines, i);
      if entry.Some? {
        MatchedLineLength(TranslationAt(lines, i));
        ReadLinesInside(lines, i, BlockEnd(lines, i) + 1);
        BlockSound(lines, i);
        assert WellFormedEntry(entry.value);
        var next := NextStart(lines, i);
        ParseFromSound(lines, next);
        assert ParseFrom(lines, i).entries == [entry.value] + ParseFrom(lines, next).entries;
      }
    }
  }

  /** Every entry read from a file is well formed. */
  lemma ParseSound(lines: seq<string>)
    requires ReadlineLines(lines)
    ensures forall e | e in Parse(lines).entries :: WellFormedEntry(e)
  {
    ParseFromSound(lines, SkipBlankLines(lines, 0));
  }

  /** The lines of an entry as a file holds them: comments, translation, one blank line. */
  function EntryLines(e: LocalizedString): seq<string> {
    e.comments + [e.translation, "\n"]
  }

  function FileLines(es: seq<LocalizedString>): seq<string> {
    if es == [] then [] else EntryLines(es[0]) + FileLines(es[1..])
  }

  lemma EntryLinesNonEmpty(e: LocalizedString)
    requires WellFormedEntry(e)
    ensures ReadlineLines(EntryLines(e))
  {
    MatchedLineLength(e.translation);
    var ls := EntryLines(e);
    forall k | 0 <= k < |ls| ensures ls[k] != "" {
      if k < |e.comments| {
        assert ls[k] == e.comments[k];
      }
    }
  }

  lemma {:induction false} FileLinesNonEmpty(es: seq<LocalizedString>)
    requires forall k | 0 <= k < |es| :: WellFormedEntry(es[k])
    ensures ReadlineLines(FileLines(es))
    ensures es != [] ==> WellFormedEntry(es[0]) && FileLines(es)[0] == es[0].comments[0]
  {
    if es != [] {
      FileLinesNonEmpty(es[1..]);
      EntryLinesNonEmpty(es[0]);
      var head := EntryLines(es[0]);
      var tail := FileLines(es[1..]);
      assert FileLines(es) == head + tail;
      forall k | 0 <= k < |head + tail| ensures (head + tail)[k] != "" {
        if k >= |head| {
          assert (head + tail)[k] == tail[k - |head|];
        }
      }
    }
  }

  /** A well-formed block placed at line `i` is delimited exactly by the reader. */
  lemma BlockEndOfWellFormed(lines: seq<string>, i: nat, cs: seq<string>)
    requires WellFormedBlock(cs)
    requires i + |cs| <= |lines| && lines[i..i + |cs|] == cs
    ensures BlockEnd(lines, i) == i + |cs| - 1
    ensures ReadLines(lines, i, i + |cs|) == cs
  {
    ReadLinesInside(lines, i, i + |cs|);
    BlockEndOfRead(lines, i, cs);
  }

  /** A well-formed block read from line `i` ends at its last line. */
  lemma BlockEndOfRead(lines: seq<string>, i: nat, cs: seq<string>)
    requires WellFormedBlock(cs)
    requires ReadLines(lines, i, i + |cs|) == cs
    ensures BlockEnd(lines, i) == i + |cs| - 1
  {
    var last := i + |cs| - 1;
    assert ReadLine(lines, i) == cs[0];
    if !IsSingleLineComment(cs[0]) {
      forall k | i <= k < last ensures ReadLine(lines, k) != "" && !IsCommentEnd(ReadLine(lines, k)) {
        assert ReadLine(lines, k) == cs[k - i];
      }
      assert ReadLine(lines, last) == cs[|cs| - 1];
      CommentBlockEndAt(lines, i, last);
    }
  }

  /** The lines of an entry written at line `i`, as the reader sees them. */
  lemma EntryLinesAt(lines: seq<string>, i: nat, e: LocalizedString, rest: seq<string>)
    requires i <= |lines| && lines[i..] == EntryLines(e) + rest
    ensures lines[i..i + |e.comments|] == e.comments
    ensures ReadLine(lines, i + |e.comments|) == e.translation
    ensures ReadLine(lines, i + |e.comments| + 1) == "\n"
    ensures lines[i + |e.comments| + 2..] == rest
    ensures ReadLine(lines, i + |e.comments| + 2) == if rest == [] then "" else rest[0]
  {
    var n := |e.comments|;
    assert lines[i..i + n] == lines[i..][..n];
    assert lines[i..][n] == e.translation;
    assert lines[i..][n + 1] == "\n";
    assert lines[i..][n + 2..] == rest;
    if rest != [] {
      assert lines[i..][n + 2] == rest[0];
    }
  }

  /** A well-formed entry written at line `i` is read back whole. */
  lemma EntryAtEntryLines(lines: seq<string>, i: nat, e: LocalizedString, rest: seq<string>)
    requires WellFormedEntry(e)
    requires i <= |lines| && lines[i..] == EntryLines(e) + rest
    ensures ReadLine(lines, i) != ""
    ensures EntryAt(lines, i) == Some(e)
  {
    var n := |e.comments|;
    EntryLinesAt(lines, i, e, rest);
    BlockEndOfWellFormed(lines, i, e.comments);
    assert ReadLine(lines, i) == e.comments[0] by { assert lines[i..i + n][0] == e.comments[0]; }
    assert TranslationAt(lines, i) == e.translation;
    assert ReadLines(lines, i, BlockEnd(lines, i) + 1) == e.comments;
    assert NewLocalizedString(e.comments, e.translation) == Some(e) by {
      assert MatchTranslation(e.translation) == Some(KeyValue(e.key, e.value));
    }
  }

  /** After an entry written at line `i`, reading resumes past its blank line. */
  lemma NextStartEntryLines(lines: seq<string>, i: nat, e: LocalizedString, rest: seq<string>)
    requires WellFormedBlock(e.comments)
    requires i <= |lines| && lines[i..] == EntryLines(e) + rest
    requires rest == [] || rest[0] != "\n"
    ensures NextStart(lines, i) == i + |EntryLines(e)| && lines[NextStart(lines, i)..] == rest
  {
    var n := |e.comments|;
    EntryLinesAt(lines, i, e, rest);
    BlockEndOfWellFormed(lines, i, e.comments);
    NextStartAfterBlock(lines, i, n);
    assert |EntryLines(e)| == n + 2;
  }

  /** After a comment block of `n` lines, a translation line and one blank line, reading resumes two lines later. */
  lemma NextStartAfterBlock(lines: seq<string>, i: nat, n: nat)
    requires n >= 1 && BlockEnd(lines, i) == i + n - 1
    requires ReadLine(lines, i + n + 1) == "\n" && ReadLine(lines, i + n + 2) != "\n"
    ensures NextStart(lines, i) == i + n + 2
  {
    NextStartParts(lines, i);
    SkipOneBlank(lines, i + n + 1);
  }

  /** The skip from a blank line followed by a line that is not blank stops right after it. */
  lemma SkipOneBlank(lines: seq<string>, j: nat)
    requires ReadLine(lines, j) == "\n" && ReadLine(lines, j + 1) != "\n"
    ensures SkipBlankLines(lines, j) == j + 1
  {
    SkipBlankStep(lines, j);
    SkipBlankStep(lines, j + 1);
  }

  lemma {:induction false} ParseFromFileLines(lines: seq<string>, i: nat, es: seq<LocalizedString>)
    requires forall k | 0 <= k < |es| :: WellFormedEntry(es[k])
    requires i <= |lines| && lines[i..] == FileLines(es)
    decreases es
    ensures ParseFrom(lines, i) == Parsed(es, None)
  {
    if es == [] {
      assert ReadLine(lines, i) == "";
    } else {
      var e, tail := es[0], es[1..];
      WellFormedSplit(es);
      EntryThenFileLines(lines, i, e, tail);
      ParseFromFileLines(lines, NextStart(lines, i), tail);
      ParseFromCons(lines, i, e, tail);
      assert [e] + tail == es;
    }
  }

  /** The first of well-formed entries and the rest are well formed. */
  lemma WellFormedSplit(es: seq<LocalizedString>)
    requires es != [] && forall k | 0 <= k < |es| :: WellFormedEntry(es[k])
    ensures WellFormedEntry(es[0])
    ensures forall k | 0 <= k < |es[1..]| :: WellFormedEntry(es[1..][k])
    ensures es[1..] != [] ==> WellFormedBlock(es[1..][0].comments)
  {
    forall k | 0 <= k < |es[1..]| ensures WellFormedEntry(es[1..][k]) {
      assert es[1..][k] == es[k + 1];
    }
    if |es| > 1 {
      assert WellFormedEntry(es[1]);
    }
  }

  /** The first line of written entries is the first comment line of the first entry. */
  lemma FileLinesHead(es: seq<LocalizedString>)
    requires es != [] && es[0].comments != []
    ensures FileLines(es) != [] && FileLines(es)[0] == es[0].comments[0]
  {
  }

  /** An entry written at line `i` in front of further entries is read whole, and reading resumes at those. */
  lemma EntryThenFileLines(lines: seq<string>, i: nat, e: LocalizedString, tail: seq<LocalizedString>)
    requires WellFormedEntry(e)
    requires tail != [] ==> WellFormedBlock(tail[0].comments)
    requires i <= |lines| && lines[i..] == FileLines([e] + tail)
    ensures ReadLine(lines, i) != "" && EntryAt(lines, i) == Some(e)
    ensures NextStart(lines, i) <= |lines| && lines[NextStart(lines, i)..] == FileLines(tail)
  {
    var rest := FileLines(tail);
    assert ([e] + tail)[1..] == tail;
    assert lines[i..] == EntryLines(e) + rest;
    if tail != [] {
      FileLinesHead(tail);
    }
    EntryAtEntryLines(lines, i, e, rest);
    NextStartEntryLines(lines, i, e, rest);
  }

  /** An entry at line `i` followed by entries read without error is read without error. */
  lemma ParseFromCons(lines: seq<string>, i: nat, e: LocalizedString, tail: seq<LocalizedString>)
    requires ReadLine(lines, i) != "" && EntryAt(lines, i) == Some(e)
    requires ParseFrom(lines, NextStart(lines, i)) == Parsed(tail, None)
    ensures ParseFrom(lines, i) == Parsed([e] + tail, None)
  {
    ParseFromStep(lines, i);
  }

  /** Writing well-formed entries as lines and reading them back gives the same entries, without error. */
  lemma ParseFileLinesRoundTrip(es: seq<LocalizedString>)
    requires forall k | 0 <= k < |es| :: WellFormedEntry(es[k])
    ensures Parse(FileLines(es)) == Parsed(es, None)
  {
    var lines := FileLines(es);
    FileLinesNonEmpty(es);
    assert SkipBlankLines(lines, 0) == 0;
    ParseFromFileLines(lines, 0, es);
  }

  /** `strings_d` after storing each entry under its key, in order, starting from `d`. */
  function IndexByKey(d: map<string, LocalizedString>, es: seq<LocalizedString>): map<string, LocalizedString>
    decreases |es|
  {
    if es == [] then d else IndexByKey(d[es[0].key := es[0]], es[1..])
  }

  /** Each entry is stored under its own key. */
  predicate KeyedByOwnKey(d: map<string, LocalizedString>) {
    forall k | k in d :: d[k].key == k
  }

  /** The index holds a key exactly when the starting map or one of the entries does. */
  lemma {:induction false} IndexByKeyHas(d: map<string, LocalizedString>, es: seq<LocalizedString>, key: string)
    decreases |es|
    ensures key in IndexByKey(d, es) <==> key in d || exists i | 0 <= i < |es| :: es[i].key == key
  {
    if es != [] {
      IndexByKeyHas(d[es[0].key := es[0]], es[1..], key);
      if exists i | 0 <= i < |es[1..]| :: es[1..][i].key == key {
        var i :| 0 <= i < |es[1..]| && es[1..][i].key == key;
        assert es[i + 1].key == key;
      }
      if exists i | 0 <= i < |es| :: es[i].key == key {
        var i :| 0 <= i < |es| && es[i].key == key;
        if i > 0 {
          assert es[1..][i - 1].key == key;
        }
      }
    }
  }

  /** A key no entry has keeps what the starting map held. */
  lemma {:induction false} IndexByKeyUntouched(d: map<string, LocalizedString>, es: seq<LocalizedString>, key: string)
    requires key in d
    requires forall i | 0 <= i < |es| :: es[i].key != key
    decreases |es|
    ensures key in IndexByKey(d, es) && IndexByKey(d, es)[key] == d[key]
  {
    if es != [] {
      forall i | 0 <= i < |es[1..]| ensures es[1..][i].key != key {
        assert es[1..][i] == es[i + 1];
      }
      IndexByKeyUntouched(d[es[0].key := es[0]], es[1..], key);
    }
  }

  /** The last entry with a key is the one the index holds for it. */
  lemma {:induction false} IndexByKeyLastWins(d: map<string, LocalizedString>, es: seq<LocalizedString>, i: nat)
    requires i < |es|
    requires forall j | i < j < |es| :: es[j].key != es[i].key
    decreases |es|
    ensures es[i].key in IndexByKey(d, es) && IndexByKey(d, es)[es[i].key] == es[i]
  {
    var tail := es[1..];
    if i == 0 {
      forall j | 0 <= j < |tail| ensures tail[j].key != es[0].key {
        assert tail[j] == es[j + 1];
      }
      IndexByKeyUntouched(d[es[0].key := es[0]], tail, es[0].key);
    } else {
      assert tail[i - 1] == es[i];
      forall j | i - 1 < j < |tail| ensures tail[j].key != tail[i - 1].key {
        assert tail[j] == es[j + 1];
      }
      IndexByKeyLastWins(d[es[0].key := es[0]], tail, i - 1);
    }
  }

  lemma {:induction false} IndexByKeyKeepsOwnKeys(d: map<string, LocalizedString>, es: seq<LocalizedString>)
    requires KeyedByOwnKey(d)
    decreases |es|
    ensures KeyedByOwnKey(IndexByKey(d, es))
  {
    if es != [] {
      IndexByKeyKeepsOwnKeys(d[es[0].key := es[0]], es[1..]);
    }
  }

  // ---------------------------------------------------------------------
  // Merging

  /** The merged entry for a new entry: the old entry with the new comments, when the old file has its key. */
  function MergeEntry(oldD: map<string, LocalizedString>, s: LocalizedString): LocalizedString {
    if s.key in oldD then oldD[s.key].(comments := s.comments) else s
  }

  /** The entries of `merge_with`: one per new entry, in the new file's order. */
  function Merged(oldD: map<string, LocalizedString>, news: seq<LocalizedString>): (r: seq<LocalizedString>)
    ensures |r| == |news|
    ensures forall i | 0 <= i < |news| :: r[i] == MergeEntry(oldD, news[i])
  {
    if news == [] then [] else [MergeEntry(oldD, news[0])] + Merged(oldD, news[1..])
  }

  /**
   * The merge keeps exactly the new file's keys, in its order, with the new
   * comments; a key the old file has takes the old translation line, key and
   * value; any other entry is the new one unchanged. Keys only in the old
   * file do not appear.
   */
  lemma MergeWhichSideWins(oldD: map<string, LocalizedString>, news: seq<LocalizedString>)
    requires KeyedByOwnKey(oldD)
    ensures var r := Merged(oldD, news);
      && |r| == |news|
      && (forall i | 0 <= i < |news| :: r[i].key == news[i].key && r[i].comments == news[i].comments)
      && (forall i | 0 <= i < |news| && news[i].key in oldD ::
            r[i].translation == oldD[news[i].key].translation && r[i].value == oldD[news[i].key].value)
      && (forall i | 0 <= i < |news| && news[i].key !in oldD :: r[i] == news[i])
      && (forall i | 0 <= i < |r| :: exists j | 0 <= j < |news| :: news[j].key == r[i].key)
  {
    var r := Merged(oldD, news);
    forall i | 0 <= i < |r| ensures exists j | 0 <= j < |news| :: news[j].key == r[i].key {
      assert news[i].key == r[i].key;
    }
  }

  // ---------------------------------------------------------------------
  // Writing

  /** `u''.join(lines)` */
  function Join(lines: seq<string>): string {
    if lines == [] then "" else lines[0] + Join(lines[1..])
  }

  /**
   * Comment line `i` after `__unicode__` has rewritten the list in place:
   * each interior line has its newlines replaced by " - ", and each line
   * after the first interior one is left-stripped first.
   */
  function RewrittenLine(cs: seq<string>, i: nat): string
    requires i < |cs|
  {
    if 0 < i < |cs| - 1 then ReplaceNewlines(if i >= 2 then LStrip(cs[i]) else cs[i])
    else if i == |cs| - 1 && i >= 2 then LStrip(cs[i])
    else cs[i]
  }

  /** The comment lines after the rewrite. */
  function RewrittenComments(cs: seq<string>): (r: seq<string>)
    ensures |r| == |cs|
    ensures |cs| > 0 ==> r[0] == cs[0]
    ensures |cs| <= 2 ==> r == cs
    ensures forall i | 0 < i < |cs| - 1 :: NoNewline(r[i])
    ensures forall i | 2 <= i < |cs| :: r[i] == [] || !IsSpace(r[i][0])
  {
    var r := seq(|cs|, i requires 0 <= i < |cs| => RewrittenLine(cs, i));
    forall i | 2 <= i < |cs| ensures r[i] == [] || !IsSpace(r[i][0]) {
      var s := LStrip(cs[i]);
      if i < |cs| - 1 && s != [] {
        assert ReplaceNewlines(s)[0] == s[0];
      }
    }
    r
  }

  /** The entry after `__unicode__` has run on it. */
  function Rewritten(e: LocalizedString): LocalizedString {
    e.(comments := RewrittenComments(e.comments))
  }

  /** Every entry after `__unicode__` has run on it. */
  function RewrittenEntries(es: seq<LocalizedString>): (r: seq<LocalizedString>)
    ensures |r| == |es|
  {
    seq(|es|, i requires 0 <= i < |es| => Rewritten(es[i]))
  }

  /** The entries while `save_to_file` runs: those before `i` rewritten, the rest untouched. */
  function RewrittenBefore(es: seq<LocalizedString>, i: nat): (r: seq<LocalizedString>)
    requires i <= |es|
    ensures |r| == |es|
  {
    seq(|es|, k requires 0 <= k < |es| => if k < i then Rewritten(es[k]) else es[k])
  }

  lemma RewrittenBeforeStep(es: seq<LocalizedString>, i: nat)
    requires i < |es|
    ensures RewrittenBefore(es, i)[i] == es[i]
    ensures RewrittenBefore(es, i + 1) == RewrittenBefore(es, i)[i := Rewritten(es[i])]
  {
  }

  lemma RewrittenBeforeEnds(es: seq<LocalizedString>)
    ensures RewrittenBefore(es, 0) == es
    ensures RewrittenBefore(es, |es|) == RewrittenEntries(es)
  {
  }

  /** Writing one more entry appends its text. */
  lemma SerializeSnoc(es: seq<LocalizedString>, i: nat)
    requires i < |es|
    ensures Serialize(es[..i + 1]) == Serialize(es[..i]) + EntryText(es[i])
  {
    assert es[..i + 1][..i] == es[..i];
  }

  /** The text `__unicode__` returns: the joined rewritten comments, the translation line, a newline. */
  function EntryText(e: LocalizedString): string {
    Join(RewrittenComments(e.comments)) + e.translation + "\n"
  }

  /** What `save_to_file` writes: each entry's text, in order. */
  function Serialize(es: seq<LocalizedString>): string {
    if es == [] then "" else Serialize(es[..|es| - 1]) + EntryText(es[|es| - 1])
  }

  /** Joining a line in front of other lines puts it in front of their text. */
  lemma JoinCons(line: string, ls: seq<string>)
    ensures Join([line] + ls) == line + Join(ls)
  {
    assert ([line] + ls)[1..] == ls;
  }

  lemma {:induction false} JoinConcat(a: seq<string>, b: seq<string>)
    ensures Join(a + b) == Join(a) + Join(b)
  {
    if a != [] {
      assert (a + b)[1..] == a[1..] + b;
      JoinConcat(a[1..], b);
    } else {
      assert a + b == b;
    }
  }

  lemma {:induction false} FileLinesSnoc(es: seq<LocalizedString>)
    requires es != []
    ensures FileLines(es) == FileLines(es[..|es| - 1]) + EntryLines(es[|es| - 1])
  {
    if |es| > 1 {
      var tail := es[1..];
      assert tail[..|tail| - 1] == es[..|es| - 1][1..];
      assert tail[|tail| - 1] == es[|es| - 1];
      FileLinesSnoc(tail);
    } else {
      assert es[..0] == [];
    }
  }

  /** An entry whose comments are already rewritten is written as its own lines, joined. */
  lemma EntryTextLayout(e: LocalizedString)
    requires RewrittenComments(e.comments) == e.comments
    ensures EntryText(e) == Join(EntryLines(e))
  {
    JoinConcat(e.comments, [e.translation, "\n"]);
    assert Join([e.translation, "\n"]) == e.translation + "\n" by {
      assert [e.translation, "\n"][1..] == ["\n"];
      assert Join(["\n"]) == "\n" + Join([]);
    }
  }

  /**
   * Saving writes the file's line layout: once every comment block is as
   * `__unicode__` leaves it, the text `save_to_file` writes is the
   * concatenation of the comment lines, translation line and blank line of
   * each entry.
   */
  lemma {:induction false} SerializeIsFileLines(es: seq<LocalizedString>)
    requires forall k | 0 <= k < |es| :: RewrittenComments(es[k].comments) == es[k].comments
    ensures Serialize(es) == Join(FileLines(es))
  {
    if es != [] {
      var init, last := es[..|es| - 1], es[|es| - 1];
      forall k | 0 <= k < |init| ensures RewrittenComments(init[k].comments) == init[k].comments {
        assert init[k] == es[k];
      }
      SerializeIsFileLines(init);
      EntryTextLayout(last);
      FileLinesSnoc(es);
      JoinConcat(FileLines(init), EntryLines(last));
    }
  }

  // ---------------------------------------------------------------------
  // Reading the saved text back

  /**
   * The line boundaries of `unicode.splitlines`, where the `readline` of a
   * file opened through `codecs.open` ends a line: "\n", "\r" (and "\r\n" as
   * one boundary), the vertical tab, the form feed, the file, group and
   * record separators, NEL and the Unicode line and paragraph separators.
   */
  predicate IsLineBoundary(ch: char) {
    || ch == '\n' || ch == '\r' || ch == '\U{000B}' || ch == '\U{000C}'
    || ch == '\U{001C}' || ch == '\U{001D}' || ch == '\U{001E}'
    || ch == '\U{0085}' || ch == '\U{2028}' || ch == '\U{2029}'
  }

  /**
   * A line as `readline` returns it from inside a file and as the reader
   * expects it: it ends in "\n" (possibly "\r\n") and holds no other line
   * boundary.
   */
  predicate Terminated(line: string) {
    && |line| > 0 && line[|line| - 1] == '\n'
    && forall k | 0 <= k < |line| - 1 :: !IsLineBoundary(line[k]) || (k == |line| - 2 && line[k] == '\r')
  }

  /** Every line of the entry, comments and translation, is a terminated line. */
  predicate TerminatedEntry(e: LocalizedString) {
    (forall k | 0 <= k < |e.comments| :: Terminated(e.comments[k])) && Terminated(e.translation)
  }

  /** The length of the first line of `text`: up to and including its first line boundary, or all of it. */
  function LineEnd(text: string): (n: nat)
    requires text != []
    ensures 0 < n <= |text|
  {
    if text[0] == '\r' && |text| > 1 && text[1] == '\n' then 2
    else if IsLineBoundary(text[0]) || |text| == 1 then 1
    else 1 + LineEnd(text[1..])
  }

  /** The lines successive `readline()` calls return from `text`, before the "" at its end. */
  function Lines(text: string): (r: seq<string>)
    decreases |text|
    ensures ReadlineLines(r)
  {
    if text == [] then [] else [text[..LineEnd(text)]] + Lines(text[LineEnd(text)..])
  }

  /** Reading splits the text without losing or adding a character. */
  lemma {:induction false} JoinLines(text: string)
    decreases |text|
    ensures Join(Lines(text)) == text
  {
    if text != [] {
      var n := LineEnd(text);
      LinesCons(text);
      JoinCons(text[..n], Lines(text[n..]));
      JoinLines(text[n..]);
      assert text[..n] + text[n..] == text;
    }
  }

  /** A terminated line read from the front of a text is read whole. */
  lemma {:induction false} LineEndTerminated(line: string, rest: string)
    requires Terminated(line)
    decreases |line|
    ensures LineEnd(line + rest) == |line|
  {
    var text := line + rest;
    assert text[0] == line[0];
    if |line| == 2 && line[0] == '\r' {
      assert text[1] == line[1];
    } else if |line| > 1 {
      assert !IsLineBoundary(line[0]);
      var tail := line[1..];
      assert tail[|tail| - 1] == line[|line| - 1];
      forall k | 0 <= k < |tail| - 1 ensures !IsLineBoundary(tail[k]) || (k == |tail| - 2 && tail[k] == '\r') {
        assert tail[k] == line[k + 1];
      }
      assert text[1..] == tail + rest;
      LineEndTerminated(tail, rest);
    }
  }

  /** Joined terminated lines are read back as the same lines. */
  lemma {:induction false} LinesOfJoin(ls: seq<string>)
    requires forall k | 0 <= k < |ls| :: Terminated(ls[k])
    ensures Lines(Join(ls)) == ls
  {
    if ls != [] {
      var rest := Join(ls[1..]);
      assert Join(ls) == ls[0] + rest;
      LineEndTerminated(ls[0], rest);
      assert (ls[0] + rest)[..|ls[0]|] == ls[0];
      assert (ls[0] + rest)[|ls[0]|..] == rest;
      LinesOfJoin(ls[1..]);
      assert ls == [ls[0]] + ls[1..];
    }
  }

  /** The layout of entries with terminated lines has terminated lines only. */
  lemma {:induction false} FileLinesTerminated(es: seq<LocalizedString>)
    requires forall k | 0 <= k < |es| :: TerminatedEntry(es[k])
    ensures forall j | 0 <= j < |FileLines(es)| :: Terminated(FileLines(es)[j])
  {
    if es != [] {
      FileLinesTerminated(es[1..]);
      var head, tail := EntryLines(es[0]), FileLines(es[1..]);
      assert TerminatedEntry(es[0]);
      forall j | 0 <= j < |head + tail| ensures Terminated((head + tail)[j]) {
        if j < |es[0].comments| {
          assert (head + tail)[j] == es[0].comments[j];
        } else if j < |head| {
          assert (head + tail)[j] == head[j];
        } else {
          assert (head + tail)[j] == tail[j - |head|];
        }
      }
    }
  }

  /**
   * The save/read round trip: well-formed entries whose comments are already
   * as `__unicode__` leaves them, and whose lines each end in one newline,
   * are saved as a text that `readline` splits into their line layout, and
   * reading that text gives back the same entries, with no error.
   */
  lemma SaveThenRead(es: seq<LocalizedString>)
    requires forall k | 0 <= k < |es| :: WellFormedEntry(es[k])
    requires forall k | 0 <= k < |es| :: RewrittenComments(es[k].comments) == es[k].comments
    requires forall k | 0 <= k < |es| :: TerminatedEntry(es[k])
    ensures Lines(Serialize(es)) == FileLines(es)
    ensures Parse(Lines(Serialize(es))) == Parsed(es, None)
  {
    SerializeIsFileLines(es);
    FileLinesTerminated(es);
    LinesOfJoin(FileLines(es));
    ParseFileLinesRoundTrip(es);
  }

  /** Saving joins the interior lines of a longer comment block: three lines are read back as two. */
  lemma ThreeLineBlockJoined()
    ensures RewrittenComments(["/* a\n", " b\n", "c */\n"]) == ["/* a\n", " b - ", "c */\n"]
    ensures Lines(Join(["/* a\n", " b - ", "c */\n"])) == ["/* a\n", " b - c */\n"]
  {
    ThreeLineRewrite();
    JoinedBlockLines();
  }

  lemma ThreeLineRewrite()
    ensures RewrittenComments(["/* a\n", " b\n", "c */\n"]) == ["/* a\n", " b - ", "c */\n"]
  {
    var cs := ["/* a\n", " b\n", "c */\n"];
    assert ReplaceNewlines(" b\n") == " b - ";
    assert RewrittenLine(cs, 2) == "c */\n";
  }

  lemma JoinedBlockLines()
    ensures Lines(Join(["/* a\n", " b - ", "c */\n"])) == ["/* a\n", " b - c */\n"]
  {
    var joined := ["/* a\n", " b - c */\n"];
    assert Join(["/* a\n", " b - ", "c */\n"]) == Join(joined);
    assert Terminated(joined[0]) && Terminated(joined[1]);
    LinesOfJoin(joined);
  }

  /**
   * A line boundary inside a line other than its final newline ends the line
   * there: `readline` returns the text up to it and then the rest, and the
   * whole is not a terminated line.
   */
  lemma {:induction false} InnerBoundarySplits(a: string, c: char, b: string)
    requires forall k | 0 <= k < |a| :: !IsLineBoundary(a[k])
    requires IsLineBoundary(c) && Terminated(b)
    requires c != '\r' || b[0] != '\n'
    ensures Lines(a + [c] + b) == [a + [c], b]
    ensures !Terminated(a + [c] + b)
  {
    var text := a + [c] + b;
    LineEndBefore(a, c, b);
    LinesCons(text);
    assert text[..|a| + 1] == a + [c] && text[|a| + 1..] == b;
    SingleTerminatedLine(b);
    assert text[|a|] == c;
  }

  lemma {:induction false} LineEndBefore(a: string, c: char, rest: string)
    requires forall k | 0 <= k < |a| :: !IsLineBoundary(a[k])
    requires IsLineBoundary(c) && (c != '\r' || rest == [] || rest[0] != '\n')
    decreases |a|
    ensures LineEnd(a + [c] + rest) == |a| + 1
  {
    var text := a + [c] + rest;
    if a == [] {
      assert text == [c] + rest;
      assert text[0] == c;
      if c == '\r' && |text| > 1 {
        assert text[1] == rest[0];
      }
    } else {
      assert text[0] == a[0];
      assert text[1..] == a[1..] + [c] + rest;
      forall k | 0 <= k < |a[1..]| ensures !IsLineBoundary(a[1..][k]) {
        assert a[1..][k] == a[k + 1];
      }
      LineEndBefore(a[1..], c, rest);
    }
  }

  /** Reading a non-empty text takes its first line, then reads the rest. */
  lemma LinesCons(text: string)
    requires text != []
    ensures Lines(text) == [text[..LineEnd(text)]] + Lines(text[LineEnd(text)..])
  {
  }

  /** A terminated line on its own is read as that one line. */
  lemma SingleTerminatedLine(line: string)
    requires Terminated(line)
    ensures Lines(line) == [line]
  {
    assert [line][1..] == [];
    assert Join([line]) == line;
    LinesOfJoin([line]);
  }

  /** `lstrip` removes all leading whitespace, so a second one does nothing. */
  lemma LStripIdempotent(s: string)
    ensures LStrip(LStrip(s)) == LStrip(s)
  {
  }

  /** Rewriting the comments a second time changes nothing. */
  lemma RewriteIdempotent(cs: seq<string>)
    ensures RewrittenComments(RewrittenComments(cs)) == RewrittenComments(cs)
  {
    var r := RewrittenComments(cs);
    var rr := RewrittenComments(r);
    forall i | 0 <= i < |cs| ensures rr[i] == r[i] {
      if 0 < i < |cs| - 1 {
        assert NoNewline(r[i]);
        if i >= 2 {
          LStripIdempotent(cs[i]);
          var s := LStrip(cs[i]);
          if s != [] {
            assert ReplaceNewlines(s)[0] == s[0];
          }
          assert LStrip(r[i]) == r[i];
        }
      } else if i == |cs| - 1 && i >= 2 {
        LStripIdempotent(cs[i]);
      }
    }
  }

  /** Entries rewritten by one save serialise to the same text: saving twice writes the same file. */
  lemma {:induction false} SerializeRewritten(es: seq<LocalizedString>)
    ensures Serialize(RewrittenEntries(es)) == Serialize(es)
  {
    var rs := RewrittenEntries(es);
    if es != [] {
      var init := es[..|es| - 1];
      assert rs[..|rs| - 1] == RewrittenEntries(init);
      SerializeRewritten(init);
      RewriteIdempotent(es[|es| - 1].comments);
    }
  }

  /** A one-line comment block is written back as it was, followed by the translation line and a blank line. */
  lemma SingleCommentText(e: LocalizedString)
    requires |e.comments| == 1
    ensures EntryText(e) == e.comments[0] + e.translation + "\n"
  {
    assert Join(e.comments) == e.comments[0] + Join([]);
  }

  /**
   * The comment list after the loop of `__unicode__` has run for the indices
   * below `idx`: those lines are final, line `idx` has been left-stripped when
   * the previous pass rewrote it, and the lines after it are untouched.
   */
  function RewrittenUpTo(cs: seq<string>, idx: nat): (r: seq<string>)
    requires idx <= |cs|
    ensures |r| == |cs|
  {
    seq(|cs|, k requires 0 <= k < |cs| =>
      if k < idx then RewrittenLine(cs, k)
      else if k == idx && 2 <= k then LStrip(cs[k])
      else cs[k])
  }

  lemma RewrittenUpToStart(cs: seq<string>)
    ensures RewrittenUpTo(cs, 0) == cs
  {
  }

  /** One pass of the loop: an interior line loses its newlines and the next line is left-stripped. */
  lemma RewrittenUpToStep(cs: seq<string>, idx: nat)
    requires idx < |cs|
    ensures var r := RewrittenUpTo(cs, idx);
      RewrittenUpTo(cs, idx + 1) ==
        if 0 < idx < |cs| - 1 then r[idx := ReplaceNewlines(r[idx])][idx + 1 := LStrip(r[idx + 1])] else r
  {
    var r := RewrittenUpTo(cs, idx);
    var r' := RewrittenUpTo(cs, idx + 1);
    if 0 < idx < |cs| - 1 {
      var u := r[idx := ReplaceNewlines(r[idx])][idx + 1 := LStrip(r[idx + 1])];
      forall k | 0 <= k < |cs| ensures r'[k] == u[k] {
        if k == idx + 1 {
          assert r[k] == cs[k];
        }
      }
    } else {
      forall k | 0 <= k < |cs| ensures r'[k] == r[k] {
      }
    }
  }

  lemma RewrittenUpToDone(cs: seq<string>)
    ensures RewrittenUpTo(cs, |cs|) == RewrittenComments(cs)
  {
  }

  /** `LocalizedString.__unicode__`: rewrites the comment lines one index at a time, then joins. */
  method Unicode(s: LocalizedString) returns (text: string, updated: LocalizedString)
    ensures text == Join(RewrittenComments(s.comments)) + s.translation + "\n"
    ensures updated == s.(comments := RewrittenComments(s.comments))
  {
    var comments := s.comments;
    var n := |comments|;
    var idx := 0;
    RewrittenUpToStart(s.comments);
    while idx < n
      invariant 0 <= idx <= n
      invariant comments == RewrittenUpTo(s.comments, idx)
    {
      RewrittenUpToStep(s.comments, idx);
      if idx > 0 && idx < n - 1 {
        comments := comments[idx := ReplaceNewlines(comments[idx])];
        comments := comments[idx + 1 := LStrip(comments[idx + 1])];
      }
      idx := idx + 1;
    }
    RewrittenUpToDone(s.comments);
    text := Join(comments) + s.translation + "\n";
    updated := s.(comments := comments);
  }

  /** `while line and line == '\n': line = f.readline()`, from line `from`. */
  method SkipBlank(lines: seq<string>, from: nat) returns (next: nat)
    ensures next == SkipBlankLines(lines, from)
  {
    next := from;
    var line := ReadLine(lines, next);
    while line == "\n"
      invariant line == ReadLine(lines, next)
      invariant SkipBlankLines(lines, next) == SkipBlankLines(lines, from)
      decreases |lines| - next
    {
      next := next + 1;
      line := ReadLine(lines, next);
    }
  }

  /** Reads the comment block that starts at line `start`: its lines and the index of its last line. */
  method ReadCommentBlock(lines: seq<string>, start: nat) returns (last: nat, comments: seq<string>)
    requires ReadLine(lines, start) != ""
    ensures last == BlockEnd(lines, start)
    ensures comments == ReadLines(lines, start, last + 1)
  {
    last := start;
    var line := ReadLine(lines, last);
    comments := [line];
    ReadLinesSnoc(lines, start, start);
    if !IsSingleLineComment(line) {
      while line != "" && !IsCommentEnd(line)
        invariant start <= last && line == ReadLine(lines, last)
        invariant comments == ReadLines(lines, start, last + 1)
        invariant CommentBlockEnd(lines, last) == CommentBlockEnd(lines, start)
        decreases |lines| - last
      {
        last := last + 1;
        line := ReadLine(lines, last);
        ReadLinesSnoc(lines, start, last);
        comments := comments + [line];
      }
    }
  }

  /**
   * One pass of the loop body of `read_from_file`: reads the comment block
   * that starts at line `start`, the translation line after it and, when that
   * matches, the blank lines that follow.
   */
  method ReadEntry(lines: seq<string>, start: nat) returns (entry: Option<LocalizedString>, next: nat, translation: string)
    requires ReadLine(lines, start) != ""
    ensures entry == EntryAt(lines, start)
    ensures translation == TranslationAt(lines, start)
    ensures entry.Some? ==> next == NextStart(lines, start)
  {
    var last, comments := ReadCommentBlock(lines, start);
    translation := ReadLine(lines, last + 1);
    EntryAtParts(lines, start);
    if translation != "" {
      entry := NewLocalizedString(comments, translation);
    } else {
      EndOfFileNoMatch();
      entry := None;
    }
    next := last + 2;
    if entry.Some? {
      NextStartParts(lines, start);
      next := SkipBlank(lines, next);
    }
  }

  // ---------------------------------------------------------------------
  // The file

  class LocalizedFile {
    /** The entries in file order. */
    var strings: seq<LocalizedString>
    /** Each key's entry. */
    var stringsD: map<string, LocalizedString>

    ghost predicate Valid()
      reads this
    {
      KeyedByOwnKey(stringsD)
    }

    constructor ()
      ensures Valid() && strings == [] && stringsD == map[]
    {
      strings := [];
      stringsD := map[];
    }

    /**
     * `read_from_file`: appends the entries read to `strings` and indexes
     * them in `stringsD`; on an invalid file it stops with the error, the
     * entries read before it having been kept.
     */
    method ReadFromFile(lines: seq<string>) returns (error: Option<string>)
      requires Valid() && ReadlineLines(lines)
      modifies this
      ensures Valid()
      ensures strings == old(strings) + Parse(lines).entries
      ensures stringsD == IndexByKey(old(stringsD), Parse(lines).entries)
      ensures error == Parse(lines).error
    {
      ghost var all := Parse(lines);
      var pos := SkipBlank(lines, 0);
      var line := ReadLine(lines, pos);
      while line != ""
        invariant line == ReadLine(lines, pos) && line != "\n"
        invariant old(strings) + all.entries == strings + ParseFrom(lines, pos).entries
        invariant IndexByKey(old(stringsD), all.entries) == IndexByKey(stringsD, ParseFrom(lines, pos).entries)
        invariant all.error == ParseFrom(lines, pos).error
        invariant KeyedByOwnKey(stringsD)
        decreases |lines| - pos
      {
        var entry, next, translation := ReadEntry(lines, pos);
        if entry.None? {
          ParseFromFails(lines, pos);
          return Some("invalid file: " + translation);
        }
        var s := entry.value;
        ReadStep(lines, pos, strings, stringsD, old(strings) + all.entries, IndexByKey(old(stringsD), all.entries));
        strings := strings + [s];
        stringsD := stringsD[s.key := s];
        pos := next;
        line := ReadLine(lines, pos);
      }
      return None;
    }

    /** `save_to_file`: the text written; the entries' comments are left rewritten, as `__unicode__` leaves them. */
    method SaveToFile() returns (text: string)
      requires Valid()
      modifies this
      ensures Valid()
      ensures text == Serialize(old(strings))
      ensures strings == RewrittenEntries(old(strings))
      ensures stringsD == map k | k in old(stringsD) :: Rewritten(old(stringsD)[k])
    {
      ghost var original := strings;
      text := "";
      var i := 0;
      RewrittenBeforeEnds(original);
      while i < |strings|
        invariant 0 <= i <= |strings| == |original|
        invariant text == Serialize(original[..i])
        invariant strings == RewrittenBefore(original, i)
        invariant stringsD == old(stringsD)
      {
        RewrittenBeforeStep(original, i);
        SerializeSnoc(original, i);
        var t, updated := Unicode(strings[i]);
        text := text + t;
        strings := strings[i := updated];
        i := i + 1;
      }
      assert original[..i] == original;
      // Each indexed entry is one of the entries just rewritten (the same object in the source).
      stringsD := map k | k in stringsD :: Rewritten(stringsD[k]);
    }

    /** `merge_with`: a new file with the new file's entries, reusing this (old) file's translations. */
    method MergeWith(newFile: LocalizedFile) returns (merged: LocalizedFile)
      ensures fresh(merged) && merged.Valid()
      ensures merged.strings == Merged(stringsD, newFile.strings)
      ensures merged.stringsD == IndexByKey(map[], merged.strings)
    {
      merged := new LocalizedFile();
      var i := 0;
      while i < |newFile.strings|
        invariant 0 <= i <= |newFile.strings|
        invariant merged.strings == Merged(stringsD, newFile.strings[..i])
        invariant merged.stringsD == IndexByKey(map[], merged.strings)
        invariant fresh(merged)
        decreases |newFile.strings| - i
        modifies merged
      {
        var s := newFile.strings[i];
        if s.key in stringsD {
          s := stringsD[s.key].(comments := s.comments);
        }
        IndexByKeyAppend(map[], merged.strings, s);
        assert newFile.strings[..i + 1] == newFile.strings[..i] + [newFile.strings[i]];
        MergedAppend(stringsD, newFile.strings[..i], newFile.strings[i]);
        merged.strings := merged.strings + [s];
        merged.stringsD := merged.stringsD[s.key := s];
        i := i + 1;
      }
      assert newFile.strings[..i] == newFile.strings;
      IndexByKeyOwnKeysFromEmpty(merged.strings);
    }
  }

  lemma {:induction false} IndexByKeyAppend(d: map<string, LocalizedString>, es: seq<LocalizedString>, s: LocalizedString)
    decreases |es|
    ensures IndexByKey(d, es + [s]) == IndexByKey(d, es)[s.key := s]
  {
    if es != [] {
      assert (es + [s])[1..] == es[1..] + [s];
      IndexByKeyAppend(d[es[0].key := es[0]], es[1..], s);
    }
  }

  lemma {:induction false} MergedAppend(oldD: map<string, LocalizedString>, news: seq<LocalizedString>, s: LocalizedString)
    ensures Merged(oldD, news + [s]) == Merged(oldD, news) + [MergeEntry(oldD, s)]
  {
  }

  lemma IndexByKeyOwnKeysFromEmpty(es: seq<LocalizedString>)
    ensures KeyedByOwnKey(IndexByKey(map[], es))
  {
    IndexByKeyKeepsOwnKeys(map[], es);
  }
}
