/**
 * The web interface's helpers: file-name sanitising, book-name validation,
 * the list of available books, reading-time estimate, text truncation, the
 * session-variable helpers and the progress counter.
 */
module WebUtils {
  import opened Outcomes
  import opened Strings
  import opened Sorting

  // ---------------------------------------------------------------------------
  // sanitize_filename
  // ---------------------------------------------------------------------------

  /** The characters a file name may not contain. */
  const InvalidChars: string := "<>:\"/\\|?*"

  /** What each invalid character becomes. */
  const Substitute: char := '_'

  /** Each character of `s` that is in `chars` replaced by `_`, all in one pass. */
  function Masked(s: string, chars: string): (r: string)
    ensures |r| == |s|
  {
    seq(|s|, i requires 0 <= i < |s| => if s[i] in chars then Substitute else s[i])
  }

  /** `s.replace(c, d)` for one character: every `c` becomes `d`, everything else stays. */
  lemma {:induction false} ReplaceChar(s: string, c: char, d: char)
    ensures ReplaceAll(s, [c], [d]) == seq(|s|, i requires 0 <= i < |s| => if s[i] == c then d else s[i])
    decreases |s|
  {
    var m := seq(|s|, i requires 0 <= i < |s| => if s[i] == c then d else s[i]);
    if |s| > 0 {
      ReplaceChar(s[1..], c, d);
      var tail := seq(|s| - 1, i requires 0 <= i < |s| - 1 => if s[1..][i] == c then d else s[1..][i]);
      assert StartsWith(s, [c]) <==> s[0] == c;
      assert m == [m[0]] + tail;
    }
  }

  /** The loop of `sanitize_filename`: each character of `chars` in turn replaced by `_`. */
  function ReplaceEach(s: string, chars: string): string
    decreases |chars|
  {
    if |chars| == 0 then s
    else ReplaceEach(ReplaceAll(s, [chars[0]], [Substitute]), chars[1..])
  }

  /** Replacing the characters one after another is the one-pass mask, as `_` is not among them. */
  lemma {:induction false} ReplaceEachMasks(s: string, chars: string)
    requires Substitute !in chars
    ensures ReplaceEach(s, chars) == Masked(s, chars)
    decreases |chars|
  {
    if |chars| > 0 {
      var s1 := ReplaceAll(s, [chars[0]], [Substitute]);
      ReplaceChar(s, chars[0], Substitute);
      ReplaceEachMasks(s1, chars[1..]);
      forall i | 0 <= i < |s| ensures Masked(s1, chars[1..])[i] == Masked(s, chars)[i] {
        assert s[i] in chars <==> s[i] == chars[0] || s[i] in chars[1..];
      }
    }
  }

  /** `sanitize_filename`: invalid characters replaced, then surrounding whitespace stripped. */
  function Sanitize(name: string): (r: string)
    ensures forall i :: 0 <= i < |r| ==> r[i] !in InvalidChars
    ensures |r| <= |name|
  {
    var replaced := ReplaceEach(name, InvalidChars);
    assert Substitute !in InvalidChars;
    ReplaceEachMasks(name, InvalidChars);
    MaskedClean(name, InvalidChars);
    StripSliceClean(replaced, InvalidChars);
    Strip(replaced)
  }

  /** A masked string holds none of the masked characters. */
  lemma MaskedClean(s: string, chars: string)
    requires Substitute !in chars
    ensures forall i :: 0 <= i < |Masked(s, chars)| ==> Masked(s, chars)[i] !in chars
  {
  }

  /** Stripping keeps a string free of the given characters, and does not lengthen it. */
  lemma StripSliceClean(s: string, chars: string)
    requires forall i :: 0 <= i < |s| ==> s[i] !in chars
    ensures forall i :: 0 <= i < |Strip(s)| ==> Strip(s)[i] !in chars
    ensures |Strip(s)| <= |s|
  {
    StripSlice(s);
    var lo := StripStart(s);
    forall i | 0 <= i < |Strip(s)| ensures Strip(s)[i] !in chars {
      assert Strip(s)[i] == s[lo + i];
    }
  }

  /** Sanitising is the one-pass mask followed by `strip`. */
  lemma SanitizeIsMaskedStrip(name: string)
    ensures Sanitize(name) == Strip(Masked(name, InvalidChars))
  {
    ReplaceEachMasks(name, InvalidChars);
  }

  /** Sanitising a sanitised name changes nothing. */
  lemma SanitizeIdempotent(name: string)
    ensures Sanitize(Sanitize(name)) == Sanitize(name)
  {
    var once := Sanitize(name);
    SanitizeIsMaskedStrip(once);
    assert Masked(once, InvalidChars) == once;
    SanitizeIsMaskedStrip(name);
    StripIdempotent(Masked(name, InvalidChars));
  }

  /** A character that is neither invalid nor at a stripped end survives sanitising in place. */
  lemma SanitizeKeeps(name: string, i: nat)
    requires i < |name| && name[i] !in InvalidChars && !IsSpace(name[i])
    ensures exists j :: 0 <= j < |Sanitize(name)| && Sanitize(name)[j] == name[i]
  {
    var m := Masked(name, InvalidChars);
    SanitizeIsMaskedStrip(name);
    StripShape(m);
    var lo := StripStart(m);
    assert m[i] == name[i];
    assert lo <= i < lo + |Strip(m)|;
    assert Strip(m)[i - lo] == m[i];
  }

  // ---------------------------------------------------------------------------
  // validate_book_name
  // ---------------------------------------------------------------------------

  /** `validate_book_name`: rejects an empty or blank name and one whose stripped form is shorter than two. */
  function ValidBookName(name: string): (ok: bool)
  {
    if |name| == 0 || |Strip(name)| == 0 then false
    else if |Strip(name)| < 2 then false
    else true
  }

  /** A name is valid exactly when it has two non-whitespace characters at different places. */
  lemma ValidBookNameMeaning(name: string)
    ensures ValidBookName(name) <==>
            exists i, j :: 0 <= i < j < |name| && !IsSpace(name[i]) && !IsSpace(name[j])
  {
    StripShape(name);
    var lo := StripStart(name);
    var t := Strip(name);
    if ValidBookName(name) {
      assert t[0] == name[lo] && t[|t| - 1] == name[lo + |t| - 1];
    }
    if exists i, j :: 0 <= i < j < |name| && !IsSpace(name[i]) && !IsSpace(name[j]) {
      var i, j :| 0 <= i < j < |name| && !IsSpace(name[i]) && !IsSpace(name[j]);
      assert lo <= i && j < lo + |t|;
    }
  }

  // ---------------------------------------------------------------------------
  // get_available_books
  // ---------------------------------------------------------------------------

  const Markdown: string := ".md"

  /** The `.md` files of a listing without their extension, in listing order. */
  function MarkdownStems(files: seq<string>): (stems: seq<string>)
    ensures |stems| <= |files|
  {
    if |files| == 0 then []
    else
      var head := if EndsWith(files[0], Markdown) then [files[0][..|files[0]| - 3]] else [];
      head + MarkdownStems(files[1..])
  }

  /** A file is the `.md` file of stem `b` exactly when it is `b + ".md"`. */
  lemma StemOf(f: string, b: string)
    ensures (EndsWith(f, Markdown) && f[..|f| - 3] == b) <==> f == b + Markdown
  {
    if f == b + Markdown {
      assert f[..|b|] == b;
      assert f[|f| - 3..] == Markdown;
    }
    if EndsWith(f, Markdown) && f[..|f| - 3] == b {
      assert f == f[..|f| - 3] + f[|f| - 3..];
    }
  }

  /** A stem is listed exactly when the listing holds the stem with `.md` appended. */
  lemma {:induction false} MarkdownStemsMembers(files: seq<string>, b: string)
    ensures b in MarkdownStems(files) <==> b + Markdown in files
    decreases |files|
  {
    if |files| > 0 {
      var f := files[0];
      var rest := MarkdownStems(files[1..]);
      MarkdownStemsMembers(files[1..], b);
      StemOf(f, b);
      var head := if EndsWith(f, Markdown) then [f[..|f| - 3]] else [];
      assert MarkdownStems(files) == head + rest;
      assert b in head <==> f == b + Markdown;
      assert files == [f] + files[1..];
      assert b + Markdown in files <==> b + Markdown == f || b + Markdown in files[1..];
    }
  }

  /**
   * `get_available_books`: the sorted stems of the `.md` files of the
   * directory, or nothing when the directory is missing (`listing` is None).
   */
  function AvailableBooks(listing: Option<seq<string>>): (books: seq<string>)
    ensures SortedStrings(books)
    ensures listing.None? ==> books == []
    ensures listing.Some? ==> multiset(books) == multiset(MarkdownStems(listing.value))
  {
    match listing
    case None => []
    case Some(files) => SortStrings(MarkdownStems(files))
  }

  /** A book is offered exactly when its `.md` file is in the directory. */
  lemma AvailableBookIff(files: seq<string>, b: string)
    ensures b in AvailableBooks(Some(files)) <==> b + Markdown in files
  {
    var books := AvailableBooks(Some(files));
    MarkdownStemsMembers(files, b);
    assert b in books <==> b in multiset(books);
  }

  /** The book list is the only sorted arrangement of the `.md` stems. */
  lemma AvailableBooksUnique(files: seq<string>, other: seq<string>)
    requires SortedStrings(other) && multiset(other) == multiset(MarkdownStems(files))
    ensures AvailableBooks(Some(files)) == other
  {
    SortedUnique(AvailableBooks(Some(files)), other);
  }

  // ---------------------------------------------------------------------------
  // calculate_reading_time
  // ---------------------------------------------------------------------------

  /** Python's `round` of the exact quotient `n / d` (nearest integer, ties to even). */
  function RoundHalfEven(n: int, d: int): (r: int)
    requires d > 0
    ensures 2 * (n - r * d) <= d && 2 * (r * d - n) <= d
    ensures 2 * (n - r * d) == d || 2 * (r * d - n) == d ==> r % 2 == 0
  {
    var q := n / d;
    var m := n % d;
    assert n == q * d + m;
    if 2 * m < d then q
    else if 2 * m > d then
      assert (q + 1) * d == q * d + d;
      q + 1
    else if q % 2 == 0 then q
    else
      assert (q + 1) * d == q * d + d;
      q + 1
  }

  /** `round` is odd: `round(-x) == -round(x)` for the exact quotient. */
  function RoundQuotient(n: int, d: int): (r: int)
    requires d != 0
  {
    if d > 0 then RoundHalfEven(n, d) else -RoundHalfEven(n, -d)
  }

  /**
   * `calculate_reading_time`: the word count over the words per minute,
   * rounded, and never below one minute; a zero rate divides by zero.
   */
  function ReadingTime(text: string, wpm: int): (r: Result<int>)
    ensures r.Err? <==> wpm == 0
    ensures r.Err? ==> r.error == ZeroDivisionError
    ensures r.Ok? ==> r.value >= 1
  {
    if wpm == 0 then Err(ZeroDivisionError)
    else
      var q := RoundQuotient(|Words(text)|, wpm);
      Ok(if q > 1 then q else 1)
  }

  /** Above one minute, the estimate is the whole number nearest to words over rate. */
  lemma ReadingTimeNearest(text: string, wpm: int)
    requires wpm > 0 && ReadingTime(text, wpm).Ok? && ReadingTime(text, wpm).value > 1
    ensures var n := |Words(text)|; var m := ReadingTime(text, wpm).value;
            2 * (n - m * wpm) <= wpm && 2 * (m * wpm - n) <= wpm
  {
  }

  /** A quotient below one half rounds to zero or less. */
  lemma RoundBelowHalf(n: int, d: int)
    requires 0 <= 2 * n < d
    ensures RoundHalfEven(n, d) <= 0
  {
    var q := RoundHalfEven(n, d);
    assert q * d < d;
    assert (q - 1) * d < 0;
  }

  /** A text with fewer words than half the rate reads in one minute. */
  lemma ShortTextOneMinute(text: string, wpm: int)
    requires wpm > 0 && 2 * |Words(text)| < wpm
    ensures ReadingTime(text, wpm) == Ok(1)
  {
    RoundBelowHalf(|Words(text)|, wpm);
  }

  // ---------------------------------------------------------------------------
  // truncate_text
  // ---------------------------------------------------------------------------

  const Ellipsis: string := "..."

  /**
   * `truncate_text`: a text within the limit is returned as is; a longer
   * one is cut to its first `maxLength` characters (Python slice rules),
   * trailing whitespace removed, and `...` appended.
   */
  function Truncate(text: string, maxLength: int): (r: string)
    ensures |text| <= maxLength ==> r == text
    ensures |text| > maxLength ==>
              EndsWith(r, Ellipsis)
              && var kept := r[..|r| - 3];
                 StartsWith(text, kept) && |kept| <= PyIndex(|text|, maxLength)
                 && (|kept| == 0 || !IsSpace(kept[|kept| - 1]))
                 && forall i :: |kept| <= i < PyIndex(|text|, maxLength) ==> IsSpace(text[i])
  {
    if |text| <= maxLength then text
    else
      var kept := RStrip(SliceTo(text, maxLength));
      assert (kept + Ellipsis)[..|kept|] == kept;
      kept + Ellipsis
  }

  /** A truncated text is at most three characters longer than a non-negative limit. */
  lemma TruncateBound(text: string, maxLength: nat)
    ensures |Truncate(text, maxLength)| <= maxLength + 3
    ensures |text| > maxLength ==> |Truncate(text, maxLength)| >= 3
  {
  }

  // ---------------------------------------------------------------------------
  // SessionManager
  // ---------------------------------------------------------------------------

  /** `init_session_var`: sets `key` to `default` only when it is not set yet. */
  function InitVar<V>(state: map<string, V>, key: string, default: V): (r: map<string, V>)
    ensures key in r && r.Keys == state.Keys + {key}
    ensures key in state ==> r[key] == state[key]
    ensures key !in state ==> r[key] == default
    ensures forall k :: k in state && k != key ==> r[k] == state[k]
  {
    if key in state then state else state[key := default]
  }

  /** Initialising twice is initialising once, whatever the second default. */
  lemma InitVarIdempotent<V>(state: map<string, V>, key: string, d1: V, d2: V)
    ensures InitVar(InitVar(state, key, d1), key, d2) == InitVar(state, key, d1)
  {
  }

  /** `clear_session_vars`: deletes each listed key that is present. */
  function ClearVars<V>(state: map<string, V>, keys: seq<string>): (r: map<string, V>)
    ensures forall k :: k in r <==> k in state && k !in keys
    ensures forall k :: k in r ==> r[k] == state[k]
    decreases |keys|
  {
    if |keys| == 0 then state
    else
      var rest := ClearVars(if keys[0] in state then state - {keys[0]} else state, keys[1..]);
      assert forall k :: k in keys <==> k == keys[0] || k in keys[1..];
      rest
  }

  /** Clearing is the subtraction of the listed keys. */
  lemma ClearVarsSubtracts<V>(state: map<string, V>, keys: seq<string>)
    ensures ClearVars(state, keys) == state - set k | k in keys
  {
    var r := ClearVars(state, keys);
    var s := state - set k | k in keys;
    assert r.Keys == s.Keys;
  }

  /** `get_session_var`: the value of `key`, or `default` when it is not set. */
  function GetVar<V>(state: map<string, V>, key: string, default: V): (r: V)
    ensures key in state ==> r == state[key]
    ensures key !in state ==> r == default
  {
    if key in state then state[key] else default
  }

  /** After initialising, reading the key gives what was there or the initial default. */
  lemma GetAfterInit<V>(state: map<string, V>, key: string, init: V, other: V)
    ensures GetVar(InitVar(state, key, init), key, other) == GetVar(state, key, init)
  {
  }

  /** After clearing, reading a listed key falls back to the default. */
  lemma GetAfterClear<V>(state: map<string, V>, keys: seq<string>, key: string, default: V)
    requires key in keys
    ensures GetVar(ClearVars(state, keys), key, default) == default
  {
  }

  // ---------------------------------------------------------------------------
  // ProgressTracker.update
  // ---------------------------------------------------------------------------

  /** The counter state of a progress tracker; the bar and status widgets are not modelled. */
  datatype Tracker = Tracker(total: int, current: int, description: string)

  /** A fresh tracker starts at step zero. */
  function NewTracker(total: int, description: string): (t: Tracker)
    ensures t.current == 0 && t.total == total && t.description == description
  {
    Tracker(total, 0, description)
  }

  /** `f"{n}"` for any integer. */
  function IntToString(n: int): (s: string)
    ensures |s| > 0
  {
    if n < 0 then "-" + NatToString(-n) else NatToString(n)
  }

  /**
   * `update`: one more step, then the status text, which names the step
   * when a description is given and the counter otherwise. The fraction
   * `current / total` is taken before the status is written, so a zero
   * total raises after the step is counted.
   */
  function Update(t: Tracker, step: Option<string>): (r: (Tracker, Result<string>))
    ensures r.0 == t.(current := t.current + 1)
    ensures r.1.Err? <==> t.total == 0
    ensures r.1.Ok? ==> StartsWith(r.1.value, t.description + ": ")
    ensures r.1.Ok? && step.Some? && step.value != "" ==> r.1.value == t.description + ": " + step.value
    ensures r.1.Ok? && !(step.Some? && step.value != "") ==>
      r.1.value == t.description + ": " + IntToString(t.current + 1) + "/" + IntToString(t.total)
  {
    var next := t.(current := t.current + 1);
    if t.total == 0 then (next, Err(ZeroDivisionError))
    else
      var detail := if step.Some? && |step.value| > 0
                    then step.value
                    else IntToString(next.current) + "/" + IntToString(t.total);
      assert (t.description + ": " + detail)[..|t.description + ": "|] == t.description + ": ";
      (next, Ok(t.description + ": " + detail))
  }

  /** Updating once per step until one raises; returns the final tracker. */
  function UpdateAll(t: Tracker, steps: seq<Option<string>>): Tracker
    decreases |steps|
  {
    if |steps| == 0 then t
    else
      var (next, status) := Update(t, steps[0]);
      if status.Err? then next else UpdateAll(next, steps[1..])
  }

  /** With a non-zero total, `n` updates advance the counter by exactly `n`. */
  lemma {:induction false} UpdateAllCounts(t: Tracker, steps: seq<Option<string>>)
    requires t.total != 0
    ensures UpdateAll(t, steps).current == t.current + |steps|
    ensures UpdateAll(t, steps).total == t.total && UpdateAll(t, steps).description == t.description
    decreases |steps|
  {
    if |steps| > 0 {
      UpdateAllCounts(Update(t, steps[0]).0, steps[1..]);
    }
  }
}
