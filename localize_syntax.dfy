/**
 * The line-level syntax of a Localizable.strings file as the localisation
 * merge script reads it: its three regular expressions, matched with
 * `re.match` (anchored at the start), where `.` is any character but a
 * newline and `$` matches at the end of the line or just before a final
 * newline; and the two string rewrites the serialiser applies to comments.
 */
module LocalizeSyntax {
  import opened Wrappers

  /** The line without the one final newline before which `$` may match. */
  function Content(line: string): (c: string)
    ensures |c| <= |line| <= |c| + 1
  {
    if |line| > 0 && line[|line| - 1] == '\n' then line[..|line| - 1] else line
  }

  /** Every character can be matched by `.` */
  predicate NoNewline(s: string) {
    forall i | 0 <= i < |s| :: s[i] != '\n'
  }

  lemma NoNewlineSlice(s: string, from: nat, to: nat)
    requires NoNewline(s) && from <= to <= |s|
    ensures NoNewline(s[from..to])
  {
    forall i | 0 <= i < to - from ensures s[from..to][i] != '\n' {
      assert s[from..to][i] == s[from + i];
    }
  }

  // `^/(/.*|\*.*\*/)$`: a line comment, or a block comment opened and closed on one line.
  predicate IsSingleLineComment(line: string) {
    var c := Content(line);
    && NoNewline(c)
    && |c| >= 2 && c[0] == '/'
    && (c[1] == '/' || (c[1] == '*' && |c| >= 4 && c[|c| - 2] == '*' && c[|c| - 1] == '/'))
  }

  // `^.*\*/$`: a line that closes a block comment.
  predicate IsCommentEnd(line: string) {
    var c := Content(line);
    NoNewline(c) && |c| >= 2 && c[|c| - 2] == '*' && c[|c| - 1] == '/'
  }

  /** What separates the key from the value in `^"(.+)" = "(.+)";$`. */
  const Separator: string := "\" = \""

  /**
   * `c` matches `"(.+)" = "(.+)";` with the first group ending at `i`:
   * the key is `c[1..i]` and the value `c[i + 5..|c| - 2]`, both non-empty.
   */
  predicate SplitsAt(c: string, i: int) {
    && NoNewline(c)
    && 2 <= i && i + 8 <= |c|
    && c[0] == '"'
    && c[i..i + 5] == Separator
    && c[|c| - 2..] == "\";"
  }

  /** The largest split position not above `j`; the greedy first group tries these first. */
  function LastSplit(c: string, j: int): (r: Option<int>)
    decreases j
    ensures r.Some? ==> r.value <= j && SplitsAt(c, r.value)
    ensures r.Some? ==> forall k | r.value < k <= j :: !SplitsAt(c, k)
    ensures r.None? ==> forall k | k <= j :: !SplitsAt(c, k)
  {
    if j < 2 then None
    else if SplitsAt(c, j) then Some(j)
    else LastSplit(c, j - 1)
  }

  /** A key and a value as the translation pattern's two groups capture them. */
  datatype KeyValue = KeyValue(key: string, value: string)

  /** `re_translation.match(line).groups()`, or None when the line does not match. */
  function MatchTranslation(line: string): Option<KeyValue> {
    var c := Content(line);
    var i := LastSplit(c, |c| - 8);
    if i.Some? then Some(KeyValue(c[1..i.value], c[i.value + 5..|c| - 2])) else None
  }

  /** The translation line for a key and a value, as the file writes it. */
  function TranslationLine(key: string, value: string): string {
    "\"" + key + Separator + value + "\";\n"
  }

  lemma SplitShape(c: string, i: int)
    requires SplitsAt(c, i)
    ensures c == "\"" + c[1..i] + Separator + c[i + 5..|c| - 2] + "\";"
  {
    assert c == c[..1] + c[1..i] + c[i..i + 5] + c[i + 5..|c| - 2] + c[|c| - 2..];
  }

  /** A matching line is exactly `"key" = "value";`, both groups non-empty and free of newlines. */
  lemma MatchTranslationSound(line: string)
    requires MatchTranslation(line).Some?
    ensures var kv := MatchTranslation(line).value;
      && Content(line) == "\"" + kv.key + Separator + kv.value + "\";"
      && |kv.key| >= 1 && |kv.value| >= 1 && NoNewline(kv.key) && NoNewline(kv.value)
  {
    var c := Content(line);
    var i := LastSplit(c, |c| - 8).value;
    SplitShape(c, i);
    NoNewlineSlice(c, 1, i);
    NoNewlineSlice(c, i + 5, |c| - 2);
  }

  /** Writing the pattern's pieces around a non-empty key and value gives a split after the key. */
  lemma ConcatSplits(c: string, k: string, v: string)
    requires NoNewline(c) && c == "\"" + k + Separator + v + "\";"
    requires |k| >= 1 && |v| >= 1
    ensures SplitsAt(c, |k| + 1)
  {
    var j := |k| + 1;
    assert c[0] == '"';
    assert c[j..j + 5] == Separator;
    assert c[|c| - 2..] == "\";";
  }

  /** The first group is greedy: no reading of a matching line as `"k" = "v";` has a longer key. */
  lemma MatchTranslationGreedy(line: string)
    requires MatchTranslation(line).Some?
    ensures forall k, v | Content(line) == "\"" + k + Separator + v + "\";" && |v| >= 1 ::
      |k| <= |MatchTranslation(line).value.key|
  {
    var c := Content(line);
    var i := LastSplit(c, |c| - 8).value;
    assert |MatchTranslation(line).value.key| == i - 1;
    forall k, v | c == "\"" + k + Separator + v + "\";" && |v| >= 1 ensures |k| <= i - 1 {
      if |k| >= 1 {
        ConcatSplits(c, k, v);
      }
    }
  }

  /** A matching line holds at least the quotes, the separator and a one-character key and value. */
  lemma MatchedLineLength(line: string)
    requires MatchTranslation(line).Some?
    ensures |Content(line)| >= 10 && line != "" && line != "\n"
  {
  }

  /** The end-of-file mark "" is not a translation line. */
  lemma EndOfFileNoMatch()
    ensures MatchTranslation("") == None
  {
    assert Content("") == "";
  }

  /** A line matches exactly when it can be split into a non-empty key and value. */
  lemma MatchTranslationComplete(line: string)
    ensures MatchTranslation(line).Some? <==> exists i :: SplitsAt(Content(line), i)
  {
    var c := Content(line);
    if i :| SplitsAt(c, i) {
      assert i <= |c| - 8;
    }
  }

  /**
   * Writing a key and a value and matching the line gives them back,
   * provided the value has no double quote (otherwise the greedy key can
   * swallow part of it).
   */
  lemma TranslationRoundTrip(key: string, value: string)
    requires |key| >= 1 && |value| >= 1
    requires NoNewline(key) && NoNewline(value)
    requires forall i | 0 <= i < |value| :: value[i] != '"'
    ensures MatchTranslation(TranslationLine(key, value)) == Some(KeyValue(key, value))
  {
    var c := "\"" + key + Separator + value + "\";";
    TranslationLineContent(key, value);
    var i := |key| + 1;
    ConcatSplits(c, key, value);
    NoLaterSplit(c, key, value);
    LastSplitAt(c, |c| - 8, i);
    assert c[1..i] == key && c[i + 5..|c| - 2] == value;
  }

  /** The written line is its content and a final newline, and the content has no other newline. */
  lemma TranslationLineContent(key: string, value: string)
    requires NoNewline(key) && NoNewline(value)
    ensures var c := "\"" + key + Separator + value + "\";";
      Content(TranslationLine(key, value)) == c && NoNewline(c)
  {
    var c := "\"" + key + Separator + value + "\";";
    assert TranslationLine(key, value) == c + "\n";
    forall j | 0 <= j < |c| ensures c[j] != '\n' {
      if 1 <= j < |key| + 1 {
        assert c[j] == key[j - 1];
      } else if |key| + 6 <= j < |c| - 2 {
        assert c[j] == value[j - |key| - 6];
      }
    }
  }

  /** With no double quote in the value, no split lies past the end of the key. */
  lemma NoLaterSplit(c: string, key: string, value: string)
    requires c == "\"" + key + Separator + value + "\";"
    requires forall i | 0 <= i < |value| :: value[i] != '"'
    ensures forall j | |key| + 1 < j <= |c| - 8 :: !SplitsAt(c, j)
  {
    var i := |key| + 1;
    forall j | i < j <= |c| - 8 ensures !SplitsAt(c, j) {
      var m := j + 4 - (i + 5);
      assert c[j + 4] == value[m];
      assert c[j..j + 5][4] == c[j + 4];
    }
  }

  /** The search for the last split from `j` down finds `i` when nothing splits between them. */
  lemma {:induction false} LastSplitAt(c: string, j: int, i: int)
    requires SplitsAt(c, i) && i <= j
    requires forall k | i < k <= j :: !SplitsAt(c, k)
    decreases j
    ensures LastSplit(c, j) == Some(i)
  {
    if i < j {
      LastSplitAt(c, j - 1, i);
    }
  }

  /** The greedy first group: a value holding the separator loses its front to the key. */
  lemma GreedyKeyExample()
    ensures MatchTranslation("\"a\" = \"b\" = \"c\";\n") == Some(KeyValue("a\" = \"b", "c"))
  {
    var c := "\"a\" = \"b\" = \"c\";";
    assert |c| == 16;
    assert Content("\"a\" = \"b\" = \"c\";\n") == c;
    assert c[8..13] == Separator;
    assert c[14..] == "\";";
    assert SplitsAt(c, 8);
    assert LastSplit(c, |c| - 8) == Some(8);
    assert c[1..8] == "a\" = \"b";
    assert c[13..14] == "c";
  }

  // ---------------------------------------------------------------------
  // String rewrites used when writing comments back

  /**
   * Python 2's `unicode.isspace` for one character (the characters `lstrip()`
   * removes from a line read through `codecs.open`), by the Unicode 5.2 data
   * Python 2.7 ships, in which U+180E is still a space separator.
   */
  predicate IsSpace(ch: char) {
    || ch == ' ' || ch == '\t' || ch == '\n' || ch == '\r' || ch == '\U{000B}' || ch == '\U{000C}'
    || ('\U{001C}' <= ch <= '\U{001F}') || ch == '\U{0085}' || ch == '\U{00A0}' || ch == '\U{1680}'
    || ch == '\U{180E}'    || ('\U{2000}' <= ch <= '\U{200A}') || ch == '\U{2028}' || ch == '\U{2029}' || ch == '\U{202F}'
    || ch == '\U{205F}' || ch == '\U{3000}'
  }

  /** `s.lstrip()` */
  function LStrip(s: string): (r: string)
    ensures r == [] || !IsSpace(r[0])
  {
    if s != [] && IsSpace(s[0]) then LStrip(s[1..]) else s
  }

  /** `lstrip()` removes a prefix made of whitespace only. */
  lemma {:induction false} LStripRemovesSpacePrefix(s: string)
    ensures exists k | 0 <= k <= |s| :: LStrip(s) == s[k..] && forall i | 0 <= i < k :: IsSpace(s[i])
  {
    if s != [] && IsSpace(s[0]) {
      LStripRemovesSpacePrefix(s[1..]);
      var k :| 0 <= k <= |s[1..]| && LStrip(s[1..]) == s[1..][k..] && forall i | 0 <= i < k :: IsSpace(s[1..][i]);
      assert LStrip(s) == s[k + 1..];
      forall i | 0 <= i < k + 1 ensures IsSpace(s[i]) {
        if i > 0 {
          assert s[i] == s[1..][i - 1];
        }
      }
    } else {
      assert LStrip(s) == s[0..];
    }
  }

  /** `s.replace('\n', ' - ')` */
  function ReplaceNewlines(s: string): (r: string)
    ensures NoNewline(r)
    ensures NoNewline(s) ==> r == s
  {
    if s == [] then []
    else (if s[0] == '\n' then " - " else [s[0]]) + ReplaceNewlines(s[1..])
  }
}
