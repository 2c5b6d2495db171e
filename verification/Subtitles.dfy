/**
 * The subtitle-to-text filters of the Bilibili crawler. A subtitle file is
 * split on `\n`; each line is stripped and run through a per-format test;
 * the surviving lines are joined with `\n`. These are line filters, not a
 * WebVTT or SubRip parser.
 */
module Subtitles {
  import opened Outcomes
  import opened Strings
  import Markup

  const Newline := "\n"
  const Arrow := "-->"

  // ---------------------------------------------------------------------------
  // The generic filter
  // ---------------------------------------------------------------------------

  /** The output lines `pick` makes of the input lines, in order. */
  function Kept(lines: seq<string>, pick: string -> Option<string>): (kept: seq<string>)
    ensures |kept| <= |lines|
  {
    if |lines| == 0 then []
    else
      var head := match pick(lines[0]) case Some(x) => [x] case None => [];
      head + Kept(lines[1..], pick)
  }

  /** Every output line comes from some input line. */
  lemma {:induction false} KeptFrom(lines: seq<string>, pick: string -> Option<string>, k: nat)
    requires k < |Kept(lines, pick)|
    ensures exists i :: 0 <= i < |lines| && pick(lines[i]) == Some(Kept(lines, pick)[k])
  {
    var head := match pick(lines[0]) case Some(x) => [x] case None => [];
    var rest := Kept(lines[1..], pick);
    assert Kept(lines, pick) == head + rest;
    if k < |head| {
      assert pick(lines[0]) == Some(Kept(lines, pick)[k]);
    } else {
      KeptFrom(lines[1..], pick, k - |head|);
      var i :| 0 <= i < |lines[1..]| && pick(lines[1..][i]) == Some(rest[k - |head|]);
      assert lines[1..][i] == lines[i + 1];
    }
  }

  /** Every input line `pick` accepts gives an output line. */
  lemma {:induction false} KeptComplete(lines: seq<string>, pick: string -> Option<string>, i: nat)
    requires i < |lines| && pick(lines[i]).Some?
    ensures pick(lines[i]).value in Kept(lines, pick)
  {
    if i > 0 {
      assert lines[1..][i - 1] == lines[i];
      KeptComplete(lines[1..], pick, i - 1);
    }
  }

  /** `strip` keeps a character out if it was out. */
  lemma StripAbsent(s: string, c: char)
    requires c !in s
    ensures c !in Strip(s)
  {
    StripShape(s);
  }

  /** `pick` never puts a newline into a line that had none. */
  ghost predicate NewlineFree(pick: string -> Option<string>) {
    forall x :: pick(x).Some? ==> '\n' in x || '\n' !in pick(x).value
  }

  /** Lines without newlines yield output lines without newlines. */
  lemma {:induction false} KeptNewlineFree(lines: seq<string>, pick: string -> Option<string>)
    requires NewlineFree(pick)
    requires forall i :: 0 <= i < |lines| ==> '\n' !in lines[i]
    ensures forall k :: 0 <= k < |Kept(lines, pick)| ==> '\n' !in Kept(lines, pick)[k]
  {
    forall k | 0 <= k < |Kept(lines, pick)| ensures '\n' !in Kept(lines, pick)[k] {
      KeptFrom(lines, pick, k);
    }
  }

  /** The text a filter produces from `content`. */
  function Filtered(content: string, pick: string -> Option<string>): string {
    Join(Kept(Split(content, Newline), pick), Newline)
  }

  /**
   * The output splits back on `\n` into exactly the kept lines, and is
   * empty when nothing is kept.
   */
  lemma FilteredLines(content: string, pick: string -> Option<string>)
    requires NewlineFree(pick)
    ensures |Kept(Split(content, Newline), pick)| == 0 ==> Filtered(content, pick) == ""
    ensures |Kept(Split(content, Newline), pick)| > 0
            ==> Split(Filtered(content, pick), Newline) == Kept(Split(content, Newline), pick)
  {
    var lines := Split(content, Newline);
    var kept := Kept(lines, pick);
    assert Newline == ['\n'];
    SplitCharPieces(content, '\n');
    KeptNewlineFree(lines, pick);
    if |kept| > 0 {
      forall k | 0 <= k < |kept| ensures !Contains(kept[k] + Newline[..|Newline| - 1], Newline) {
        assert kept[k] + Newline[..|Newline| - 1] == kept[k];
        ContainsChar(kept[k], '\n');
      }
      SplitJoin(kept, Newline);
    }
  }

  // ---------------------------------------------------------------------------
  // The three formats
  // ---------------------------------------------------------------------------

  /** `_extract_from_srt`'s test on a stripped line: text, not a cue number, not a timing line. */
  predicate SrtText(line: string) {
    line != "" && !IsDigits(line) && !Contains(line, Arrow)
  }

  /** `_extract_from_vtt`'s test on a stripped line: not the header, a timing line or a note. */
  predicate VttText(line: string) {
    line != "" && !StartsWith(line, "WEBVTT") && !Contains(line, Arrow) && !StartsWith(line, "NOTE")
  }

  /** The test for any other subtitle file: also drops `{` lines and cue numbers. */
  predicate OtherText(line: string) {
    line != "" && !(StartsWith(line, "WEBVTT") || StartsWith(line, "NOTE") || StartsWith(line, "{"))
    && !Contains(line, Arrow) && !IsDigits(line)
  }

  /** An SRT line, stripped, is kept if it is text. */
  function SrtPick(line: string): Option<string> {
    var l := Strip(line);
    if SrtText(l) then Some(l) else None
  }

  /** A VTT line, stripped, that passes has its tags removed and is kept if anything is left. */
  function VttPick(line: string): Option<string> {
    var l := Strip(line);
    if VttText(l) && Markup.StripTags(l) != "" then Some(Markup.StripTags(l)) else None
  }

  function OtherPick(line: string): Option<string> {
    var l := Strip(line);
    if OtherText(l) then Some(l) else None
  }

  /** `_extract_from_srt` */
  function ExtractFromSrt(content: string): string {
    Filtered(content, SrtPick)
  }

  /** `_extract_from_vtt` */
  function ExtractFromVtt(content: string): string {
    Filtered(content, VttPick)
  }

  /** The branch of `_extract_text_from_subtitle` for other file types. */
  function ExtractFromOther(content: string): string {
    Filtered(content, OtherPick)
  }

  /** `_extract_text_from_subtitle`, given the file's name and its text. */
  function ExtractTextFromSubtitle(name: string, content: string): (text: string)
    ensures EndsWith(name, ".vtt") ==> text == Filtered(content, VttPick)
    ensures !EndsWith(name, ".vtt") && EndsWith(name, ".srt") ==> text == Filtered(content, SrtPick)
    ensures !EndsWith(name, ".vtt") && !EndsWith(name, ".srt") ==> text == Filtered(content, OtherPick)
  {
    if EndsWith(name, ".vtt") then ExtractFromVtt(content)
    else if EndsWith(name, ".srt") then ExtractFromSrt(content)
    else ExtractFromOther(content)
  }

  lemma PicksNewlineFree()
    ensures NewlineFree(SrtPick) && NewlineFree(VttPick) && NewlineFree(OtherPick)
  {
    forall x | SrtPick(x).Some? ensures '\n' in x || '\n' !in SrtPick(x).value {
      if '\n' !in x {
        StripAbsent(x, '\n');
      }
    }
    forall x | VttPick(x).Some? ensures '\n' in x || '\n' !in VttPick(x).value {
      if '\n' !in x {
        StripAbsent(x, '\n');
        Markup.StripTagsAbsent(Strip(x), '\n');
      }
    }
    forall x | OtherPick(x).Some? ensures '\n' in x || '\n' !in OtherPick(x).value {
      if '\n' !in x {
        StripAbsent(x, '\n');
      }
    }
  }

  /**
   * SRT: the output lines are exactly the stripped input lines that are
   * non-empty, not all digits and without `-->`, in order.
   */
  lemma SrtLines(content: string)
    ensures forall k :: 0 <= k < |Kept(Split(content, Newline), SrtPick)|
              ==> SrtText(Kept(Split(content, Newline), SrtPick)[k])
    ensures forall i :: (0 <= i < |Split(content, Newline)| && SrtText(Strip(Split(content, Newline)[i])))
              ==> Strip(Split(content, Newline)[i]) in Kept(Split(content, Newline), SrtPick)
    ensures |Kept(Split(content, Newline), SrtPick)| > 0
            ==> Split(ExtractFromSrt(content), Newline) == Kept(Split(content, Newline), SrtPick)
  {
    var lines := Split(content, Newline);
    forall k | 0 <= k < |Kept(lines, SrtPick)| ensures SrtText(Kept(lines, SrtPick)[k]) {
      KeptFrom(lines, SrtPick, k);
    }
    forall i | 0 <= i < |lines| && SrtText(Strip(lines[i])) ensures Strip(lines[i]) in Kept(lines, SrtPick) {
      KeptComplete(lines, SrtPick, i);
    }
    PicksNewlineFree();
    FilteredLines(content, SrtPick);
  }

  /**
   * VTT: the output lines are the tag-stripped forms of the stripped lines
   * that are not blank, headers, notes or timings, each non-empty and free
   * of tags.
   */
  lemma VttLines(content: string)
    ensures forall k :: 0 <= k < |Kept(Split(content, Newline), VttPick)|
              ==> (Kept(Split(content, Newline), VttPick)[k] != ""
                   && Markup.TagFree(Kept(Split(content, Newline), VttPick)[k]))
    ensures forall i :: (0 <= i < |Split(content, Newline)| && VttText(Strip(Split(content, Newline)[i]))
                         && Markup.StripTags(Strip(Split(content, Newline)[i])) != "")
              ==> Markup.StripTags(Strip(Split(content, Newline)[i])) in Kept(Split(content, Newline), VttPick)
    ensures |Kept(Split(content, Newline), VttPick)| > 0
            ==> Split(ExtractFromVtt(content), Newline) == Kept(Split(content, Newline), VttPick)
  {
    var lines := Split(content, Newline);
    var kept := Kept(lines, VttPick);
    forall k | 0 <= k < |kept| ensures kept[k] != "" && Markup.TagFree(kept[k]) {
      KeptFrom(lines, VttPick, k);
      var i :| 0 <= i < |lines| && VttPick(lines[i]) == Some(kept[k]);
      Markup.StripTagsTagFree(Strip(lines[i]));
    }
    forall i | 0 <= i < |lines| && VttText(Strip(lines[i])) && Markup.StripTags(Strip(lines[i])) != ""
      ensures Markup.StripTags(Strip(lines[i])) in kept
    {
      KeptComplete(lines, VttPick, i);
    }
    PicksNewlineFree();
    FilteredLines(content, VttPick);
  }

  /** Other formats: the output lines are exactly the stripped lines passing `OtherText`, in order. */
  lemma OtherLines(content: string)
    ensures forall k :: 0 <= k < |Kept(Split(content, Newline), OtherPick)|
              ==> OtherText(Kept(Split(content, Newline), OtherPick)[k])
    ensures forall i :: (0 <= i < |Split(content, Newline)| && OtherText(Strip(Split(content, Newline)[i])))
              ==> Strip(Split(content, Newline)[i]) in Kept(Split(content, Newline), OtherPick)
    ensures |Kept(Split(content, Newline), OtherPick)| > 0
            ==> Split(ExtractFromOther(content), Newline) == Kept(Split(content, Newline), OtherPick)
  {
    var lines := Split(content, Newline);
    forall k | 0 <= k < |Kept(lines, OtherPick)| ensures OtherText(Kept(lines, OtherPick)[k]) {
      KeptFrom(lines, OtherPick, k);
    }
    forall i | 0 <= i < |lines| && OtherText(Strip(lines[i])) ensures Strip(lines[i]) in Kept(lines, OtherPick) {
      KeptComplete(lines, OtherPick, i);
    }
    PicksNewlineFree();
    FilteredLines(content, OtherPick);
  }

  // ---------------------------------------------------------------------------
  // extract_subtitles_text
  // ---------------------------------------------------------------------------

  predicate IsSubtitleFile(name: string) {
    EndsWith(name, ".vtt") || EndsWith(name, ".srt") || EndsWith(name, ".ass")
  }

  /** The section one subtitle file contributes, if its text is non-empty. */
  function Section(name: string, content: string): Option<string> {
    var text := ExtractTextFromSubtitle(name, content);
    if text == "" then None else Some("# 视频字幕: " + name + "\n\n" + text + "\n\n")
  }

  /** The sections of the subtitle files among `files`, in listing order. */
  function Sections(files: seq<(string, string)>): (sections: seq<string>)
    ensures |sections| <= |files|
  {
    if |files| == 0 then [] else Contribution(files[0]) + Sections(files[1..])
  }

  /** What one listed file adds: its section when it is a subtitle file with some text. */
  function Contribution(file: (string, string)): (out: seq<string>)
    ensures |out| <= 1
  {
    if IsSubtitleFile(file.0) then match Section(file.0, file.1) case Some(t) => [t] case None => [] else []
  }

  /** The combined text and the file it is saved to (none when no section is non-empty). */
  datatype Combined = Combined(text: string, saved: Option<string>)

  /**
   * `extract_subtitles_text`: `listing` is the directory's (name, content)
   * pairs in listing order, or `None` when `{book}/video` does not exist.
   */
  function ExtractSubtitlesText(book: string, listing: Option<seq<(string, string)>>): (c: Combined)
    ensures listing.None? ==> c == Combined("", None)
    ensures c.saved.Some? <==> listing.Some? && |Sections(listing.value)| > 0
    ensures c.saved.Some? ==> c.saved.value == book + "/video/all_subtitles.txt"
    ensures c.saved.Some? ==> c.text == Join(Sections(listing.value), Newline)
    ensures c.saved.None? ==> c.text == ""
  {
    match listing
    case None => Combined("", None)
    case Some(files) =>
      var sections := Sections(files);
      if |sections| == 0 then Combined("", None)
      else Combined(Join(sections, Newline), Some(book + "/video/all_subtitles.txt"))
  }

  /** Only subtitle files with some text contribute, each exactly once, in order. */
  lemma {:induction false} SectionsExactly(files: seq<(string, string)>, k: nat)
    requires k < |files|
    ensures IsSubtitleFile(files[k].0) && Section(files[k].0, files[k].1).Some?
            ==> Section(files[k].0, files[k].1).value in Sections(files)
  {
    var (name, content) := files[k];
    if IsSubtitleFile(name) && Section(name, content).Some? {
      var t := Section(name, content).value;
      assert Sections(files) == Contribution(files[0]) + Sections(files[1..]);
      if k == 0 {
        assert Contribution(files[0]) == [t];
      } else {
        assert files[1..][k - 1] == files[k];
        SectionsExactly(files[1..], k - 1);
        assert t in Sections(files[1..]);
      }
    }
  }

  /** Every section names its subtitle file and carries a non-empty extracted text. */
  lemma {:induction false} SectionsFromFiles(files: seq<(string, string)>, s: string)
    requires s in Sections(files)
    ensures exists k :: 0 <= k < |files| && IsSubtitleFile(files[k].0)
                        && ExtractTextFromSubtitle(files[k].0, files[k].1) != ""
                        && s == "# 视频字幕: " + files[k].0 + "\n\n" + ExtractTextFromSubtitle(files[k].0, files[k].1) + "\n\n"
  {
    var (name, content) := files[0];
    assert Sections(files) == Contribution(files[0]) + Sections(files[1..]);
    if IsSubtitleFile(name) && Section(name, content) == Some(s) {
      assert files[0].0 == name;
    } else {
      assert s in Sections(files[1..]);
      SectionsFromFiles(files[1..], s);
      var k :| 0 <= k < |files[1..]| && IsSubtitleFile(files[1..][k].0)
               && ExtractTextFromSubtitle(files[1..][k].0, files[1..][k].1) != ""
               && s == "# 视频字幕: " + files[1..][k].0 + "\n\n" + ExtractTextFromSubtitle(files[1..][k].0, files[1..][k].1) + "\n\n";
      assert files[1..][k] == files[k + 1];
    }
  }

  /** Every part of a join occurs in it. */
  lemma {:induction false} JoinContainsPart(parts: seq<string>, sep: string, k: nat)
    requires k < |parts|
    ensures Contains(Join(parts, sep), parts[k])
    decreases |parts|
  {
    var j := Join(parts, sep);
    if k == 0 {
      assert j[..|parts[0]|] == parts[0];
      assert OccursAt(j, parts[0], 0);
    } else {
      var rest := Join(parts[1..], sep);
      assert j == parts[0] + sep + rest;
      JoinContainsPart(parts[1..], sep, k - 1);
      assert j[|parts[0]| + |sep|..|j|] == rest;
      ContainsSlice(j, parts[k], |parts[0]| + |sep|, |j|);
    }
  }

  /**
   * The saved and returned text holds the section of every subtitle file
   * with some text: its header naming the file, then its extracted text.
   */
  lemma SubtitlesTextHoldsEverySection(book: string, files: seq<(string, string)>, k: nat)
    requires k < |files| && IsSubtitleFile(files[k].0)
    requires ExtractTextFromSubtitle(files[k].0, files[k].1) != ""
    ensures var c := ExtractSubtitlesText(book, Some(files));
      c.saved == Some(book + "/video/all_subtitles.txt")
      && Contains(c.text, "# 视频字幕: " + files[k].0 + "\n\n" + ExtractTextFromSubtitle(files[k].0, files[k].1) + "\n\n")
  {
    var t := Section(files[k].0, files[k].1).value;
    SectionsExactly(files, k);
    var sections := Sections(files);
    var i :| 0 <= i < |sections| && sections[i] == t;
    JoinContainsPart(sections, Newline, i);
  }
}
