/**
 * The bookshelf page: the book list read off the prompt directory, the
 * preview on each book's card, the add-book form and the details panel.
 *
 * The prompt directory is flat: `Shelf` lists its file names in directory
 * order and maps each to its text.
 */
module Bookshelf {
  import opened Outcomes
  import opened Strings
  import opened Sorting
  import WebUtils

  datatype Shelf = Shelf(listing: seq<string>, contents: map<string, string>)

  /** The listing names exactly the files there are. */
  ghost predicate Consistent(s: Shelf) {
    forall f :: f in s.listing <==> f in s.contents
  }

  // ---------------------------------------------------------------------------
  // load_existing_books
  // ---------------------------------------------------------------------------

  /**
   * `Path(name).stem`: the name without its last `.`-suffix, unless that
   * dot is the first or the last character, when there is no suffix.
   */
  function Stem(name: string): (stem: string)
    ensures |stem| <= |name| && StartsWith(name, stem)
  {
    match LastIndexOfChar(name, '.')
    case Some(i) => if 0 < i < |name| - 1 then name[..i] else name
    case None => name
  }

  /** A name `b + ".md"` has the stem `b`, unless `b` is empty. */
  lemma MarkdownStem(b: string)
    requires b != ""
    ensures Stem(b + WebUtils.Markdown) == b
  {
    var f := b + WebUtils.Markdown;
    assert f[|b|] == '.' && f[|b| + 1] == 'm' && f[|b| + 2] == 'd';
    assert LastIndexOfChar(f, '.') == Some(|b|);
    assert f[..|b|] == b;
  }

  /** The file `.md` is a hidden file without a suffix: its stem is the whole name. */
  lemma HiddenMarkdownStem()
    ensures Stem(WebUtils.Markdown) == WebUtils.Markdown
  {
    assert LastIndexOfChar(WebUtils.Markdown, '.') == Some(0);
  }

  /** The stems of the names matching `*.md`, in directory order. */
  function GlobStems(listing: seq<string>): (stems: seq<string>)
    ensures |stems| <= |listing|
  {
    if |listing| == 0 then []
    else (if EndsWith(listing[0], WebUtils.Markdown) then [Stem(listing[0])] else []) + GlobStems(listing[1..])
  }

  /** `load_existing_books`: the stems of the `*.md` files, sorted. */
  function LoadExistingBooks(listing: seq<string>): (books: seq<string>)
    ensures SortedStrings(books) && multiset(books) == multiset(GlobStems(listing))
  {
    SortStrings(GlobStems(listing))
  }

  /** Away from the hidden file `.md`, the stems are the names with `.md` cut. */
  lemma {:induction false} GlobStemsAreMarkdownStems(listing: seq<string>)
    requires WebUtils.Markdown !in listing
    ensures GlobStems(listing) == WebUtils.MarkdownStems(listing)
    decreases |listing|
  {
    if |listing| > 0 {
      var f := listing[0];
      assert WebUtils.Markdown !in listing[1..];
      GlobStemsAreMarkdownStems(listing[1..]);
      if EndsWith(f, WebUtils.Markdown) {
        var b := f[..|f| - 3];
        assert f == b + WebUtils.Markdown;
        MarkdownStem(b);
      }
    }
  }

  /**
   * Without a hidden `.md` file, the bookshelf lists the same books as the
   * chat pages' `get_available_books`.
   */
  lemma SameBooksAsChat(listing: seq<string>)
    requires WebUtils.Markdown !in listing
    ensures LoadExistingBooks(listing) == WebUtils.AvailableBooks(Some(listing))
  {
    GlobStemsAreMarkdownStems(listing);
  }

  /** With a hidden `.md` file the two lists differ: the bookshelf shows `.md`, the chat pages the empty name. */
  lemma HiddenFileListedDifferently()
    ensures LoadExistingBooks([WebUtils.Markdown]) == [WebUtils.Markdown]
    ensures WebUtils.AvailableBooks(Some([WebUtils.Markdown])) == [""]
  {
    HiddenMarkdownStem();
    assert EndsWith(WebUtils.Markdown, WebUtils.Markdown);
    assert WebUtils.Markdown[..0] == "";
  }

  // ---------------------------------------------------------------------------
  // The book cards
  // ---------------------------------------------------------------------------

  const Paragraph: string := "\n\n"

  /** The card preview: the first two paragraphs, joined back, and `...`. */
  function Preview(content: string): (r: string)
    ensures EndsWith(r, WebUtils.Ellipsis)
  {
    var paragraphs := Split(content, Paragraph);
    var shown := paragraphs[..if |paragraphs| < 2 then |paragraphs| else 2];
    var r := Join(shown, Paragraph) + WebUtils.Ellipsis;
    assert r[|r| - 3..] == WebUtils.Ellipsis;
    r
  }

  /** The preview is a beginning of the text followed by `...`. */
  lemma PreviewIsPrefix(content: string)
    ensures exists head :: Preview(content) == head + WebUtils.Ellipsis && StartsWith(content, head)
  {
    var paragraphs := Split(content, Paragraph);
    var k := if |paragraphs| < 2 then |paragraphs| else 2;
    SplitPieces(content, Paragraph);
    JoinPrefixOfSplit(paragraphs, Paragraph, k);
    var head := Join(paragraphs[..k], Paragraph);
    assert Preview(content) == head + WebUtils.Ellipsis;
  }

  /** A text of one paragraph is shown whole. */
  lemma OneParagraphShownWhole(content: string)
    requires !Contains(content, Paragraph)
    ensures Preview(content) == content + WebUtils.Ellipsis
  {
    SplitNoSep(content, Paragraph);
    assert [content][..1] == [content];
  }

  /**
   * Opening a book's file for its card: the file of the book's name, which
   * is missing for the book `.md` shown for the hidden file.
   */
  function Card(s: Shelf, book: string): (r: Result<(string, string)>)
    ensures r.Ok? <==> book + WebUtils.Markdown in s.contents
    ensures r.Err? ==> r.error == FileNotFound
    ensures r.Ok? ==> r.value.0 == book
  {
    var path := book + WebUtils.Markdown;
    if path in s.contents then Ok((book, Preview(s.contents[path]))) else Err(FileNotFound)
  }

  /** The cards in list order; the first file that cannot be opened stops the page. */
  function Cards(s: Shelf, books: seq<string>): (r: Result<seq<(string, string)>>)
    ensures r.Ok? <==> forall k :: 0 <= k < |books| ==> Card(s, books[k]).Ok?
    ensures r.Ok? ==> |r.value| == |books| && forall k :: 0 <= k < |books| ==> r.value[k] == Card(s, books[k]).value
  {
    if |books| == 0 then Ok([])
    else
      match Card(s, books[0])
      case Err(e) => Err(e)
      case Ok(card) =>
        match Cards(s, books[1..])
        case Err(e) => Err(e)
        case Ok(rest) => Ok([card] + rest)
  }

  /** Every listed book's card opens, unless the directory holds the hidden `.md` file. */
  lemma CardsOpen(s: Shelf)
    requires Consistent(s) && WebUtils.Markdown !in s.listing
    ensures Cards(s, LoadExistingBooks(s.listing)).Ok?
  {
    var books := LoadExistingBooks(s.listing);
    SameBooksAsChat(s.listing);
    forall k | 0 <= k < |books| ensures Card(s, books[k]).Ok? {
      assert books[k] in books;
      WebUtils.AvailableBookIff(s.listing, books[k]);
    }
  }

  /** The page fails on a directory holding just the hidden `.md` file. */
  lemma HiddenFileCardFails()
    ensures var s := Shelf([WebUtils.Markdown], map[WebUtils.Markdown := ""]);
            Consistent(s) && Cards(s, LoadExistingBooks(s.listing)) == Err(FileNotFound)
  {
    HiddenFileListedDifferently();
    var s := Shelf([WebUtils.Markdown], map[WebUtils.Markdown := ""]);
    assert WebUtils.Markdown + WebUtils.Markdown != WebUtils.Markdown;
  }

  // ---------------------------------------------------------------------------
  // Adding a book
  // ---------------------------------------------------------------------------

  /** The generation prompt's fixed text, cut where the title and the description go in. */
  datatype GenerationWording = GenerationWording(head: string, middle: string, tail: string)

  const ChineseGeneration: GenerationWording := GenerationWording(
    "\n    # 书名\n    ",
    "\n\n    # 大致剧情：\n    请根据以下书籍描述，创建一个生动、详细的剧情概述，包括主要情节、人物分析和主题探讨：\n\n    ",
    "\n\n    请以markdown格式输出，确保内容丰富但不超过500字。\n    ")

  /** The prompt asking for a book's prompt: the title and the description in their places. */
  function GenerationPrompt(w: GenerationWording, name: string, description: string): (r: string)
    ensures OccursAt(r, name, |w.head|) && OccursAt(r, description, |w.head + name + w.middle|)
  {
    var first := w.head + name + w.middle;
    var r := first + description + w.tail;
    assert r[|w.head|..|w.head| + |name|] == name;
    assert r[|first|..|first| + |description|] == description;
    r
  }

  /** Writing `text` to the file `file`, which is listed at the end when it is new. */
  function Save(s: Shelf, file: string, text: string): (r: Shelf)
    ensures Consistent(s) ==> Consistent(r)
    ensures r.contents == s.contents[file := text] && file in r.listing
    ensures forall f :: f in s.listing ==> f in r.listing
  {
    Shelf(if file in s.listing then s.listing else s.listing + [file], s.contents[file := text])
  }

  /** The shelf directory, relative to the working directory. */
  const ShelfDir: string := "website/book_prompt"

  /**
   * `BOOK_PROMPT_DIR / f"{title}.md"`: a title starting with `/` is an
   * absolute path and replaces the directory; any other title is put under it.
   */
  function PromptPath(name: string): string {
    if |name| > 0 && name[0] == '/' then name + WebUtils.Markdown
    else ShelfDir + "/" + name + WebUtils.Markdown
  }

  /** The directory a path's file is written into: the text before its last `/`. */
  function ParentDir(path: string): string {
    match LastIndexOfChar(path, '/')
    case None => "."
    case Some(i) => if i == 0 then "/" else path[..i]
  }

  /**
   * A title's file lands in the shelf directory exactly when the title
   * holds no `/`; any `/` sends it to a subdirectory, to a directory
   * `..` leads to, or to an absolute path.
   */
  lemma PromptPathInShelf(name: string)
    requires name != ""
    ensures ParentDir(PromptPath(name)) == ShelfDir <==> '/' !in name
  {
    var p := PromptPath(name);
    var n := |ShelfDir|;
    if name[0] == '/' {
      var i := LastIndexOfChar(p, '/').value;
      assert p[0] == '/';
      if i > 0 {
        assert ParentDir(p)[0] == '/' != ShelfDir[0];
      }
    } else {
      assert p == ShelfDir + "/" + (name + WebUtils.Markdown);
      assert p[n] == '/';
      var i := LastIndexOfChar(p, '/').value;
      assert n <= i;
      if '/' in name {
        var j :| 0 <= j < |name| && name[j] == '/';
        assert p[n + 1 + j] == '/';
        assert |ParentDir(p)| == i > n;
      } else {
        forall k | n < k < |p| ensures p[k] != '/' {
          assert p[k] == (name + WebUtils.Markdown)[k - n - 1];
        }
        assert i == n;
        assert p[..n] == ShelfDir;
      }
    }
  }

  /** What the form does: nothing, a warning, a shown error, the text saved on the shelf, or saved elsewhere. */
  datatype Added = Quiet | Warned | Failed | Saved(content: string) | SavedAt(path: string, content: string)

  /**
   * The add-book form: with both a title and a description, the model's
   * answer to the generation prompt is written to the title's `.md` path.
   * A title without `/` is a file of the shelf; one with a `/` is written
   * outside the flat shelf directory, and the write raises, shown as an
   * error, when the directory it names does not exist (`dirExists` says
   * which directories do). A click with a field empty only warns.
   */
  function AddBook(s: Shelf, clicked: bool, name: string, description: string, w: GenerationWording,
                   llm: string -> string, dirExists: string -> bool): (r: (Shelf, Added))
    ensures r.1.Saved? <==> clicked && name != "" && description != "" && '/' !in name
    ensures r.1.SavedAt? <==>
      clicked && name != "" && description != "" && '/' in name && dirExists(ParentDir(PromptPath(name)))
    ensures r.1 == Failed <==>
      clicked && name != "" && description != "" && '/' in name && !dirExists(ParentDir(PromptPath(name)))
    ensures r.1 == Warned <==> clicked && (name == "" || description == "")
    ensures !r.1.Saved? ==> r.0 == s
    ensures r.1.Saved? ==> r.1.content == llm(GenerationPrompt(w, name, description))
                           && r.0 == Save(s, name + WebUtils.Markdown, r.1.content)
    ensures r.1.SavedAt? ==> r.1.content == llm(GenerationPrompt(w, name, description))
                             && r.1.path == PromptPath(name) && ParentDir(r.1.path) != ShelfDir
  {
    if clicked && name != "" && description != "" then
      var content := llm(GenerationPrompt(w, name, description));
      if '/' !in name then (Save(s, name + WebUtils.Markdown, content), Saved(content))
      else
        PromptPathInShelf(name);
        var path := PromptPath(name);
        if dirExists(ParentDir(path)) then (s, SavedAt(path, content)) else (s, Failed)
    else if clicked then (s, Warned)
    else (s, Quiet)
  }

  /** A title such as `../x` or `/tmp/x` is written to a directory that exists, off the shelf. */
  lemma EscapingTitleSaved(s: Shelf, name: string, description: string, w: GenerationWording, llm: string -> string)
    requires name != "" && description != "" && '/' in name
    ensures var r := AddBook(s, true, name, description, w, llm, (d: string) => true);
            r.1 == SavedAt(PromptPath(name), llm(GenerationPrompt(w, name, description))) && r.0 == s
  {
  }

  /** A saved book is on the shelf afterwards, and its card shows the generated text. */
  lemma AddedBookListed(s: Shelf, name: string, description: string, w: GenerationWording, llm: string -> string,
                        dirExists: string -> bool)
    requires name != "" && description != "" && '/' !in name
    ensures var r := AddBook(s, true, name, description, w, llm, dirExists);
            name in LoadExistingBooks(r.0.listing)
            && Card(r.0, name) == Ok((name, Preview(r.1.content)))
  {
    var r := AddBook(s, true, name, description, w, llm, dirExists);
    var file := name + WebUtils.Markdown;
    MarkdownStem(name);
    GlobStemsMember(r.0.listing, file);
    assert name in multiset(LoadExistingBooks(r.0.listing));
  }

  /** A listed `.md` file's stem is among the glob's stems. */
  lemma {:induction false} GlobStemsMember(listing: seq<string>, f: string)
    requires f in listing && EndsWith(f, WebUtils.Markdown)
    ensures Stem(f) in GlobStems(listing)
    decreases |listing|
  {
    if listing[0] != f {
      GlobStemsMember(listing[1..], f);
    }
  }

  // ---------------------------------------------------------------------------
  // The details panel
  // ---------------------------------------------------------------------------

  const SelectedBook: string := "selected_book"

  /** "View Details" on a card: remembers the book. */
  function ViewDetails(session: map<string, string>, book: string): (r: map<string, string>)
    ensures r.Keys == session.Keys + {SelectedBook} && r[SelectedBook] == book
  {
    session[SelectedBook := book]
  }

  /**
   * The details panel: shown only while a book is selected, with the text
   * of its file, which must exist; "Close Details" then forgets the book.
   */
  function Details(session: map<string, string>, s: Shelf, close: bool): (r: (Option<Result<string>>, map<string, string>))
    ensures r.0.None? <==> SelectedBook !in session
    ensures r.0.Some? ==> (r.0.value.Ok? <==> session[SelectedBook] + WebUtils.Markdown in s.contents)
    ensures r.0.Some? && r.0.value.Ok? ==> r.0.value.value == s.contents[session[SelectedBook] + WebUtils.Markdown]
    ensures r.1 == if close && r.0.Some? && r.0.value.Ok? then WebUtils.ClearVars(session, [SelectedBook]) else session
  {
    if SelectedBook !in session then (None, session)
    else
      var path := session[SelectedBook] + WebUtils.Markdown;
      if path !in s.contents then (Some(Err(FileNotFound)), session)
      else (Some(Ok(s.contents[path])), if close then session - {SelectedBook} else session)
  }

  /** Viewing a book and closing its details leaves the session without a selection and otherwise as it was. */
  lemma ViewThenClose(session: map<string, string>, s: Shelf, book: string)
    requires book + WebUtils.Markdown in s.contents
    ensures var r := Details(ViewDetails(session, book), s, true);
            r.0 == Some(Ok(s.contents[book + WebUtils.Markdown])) && r.1 == session - {SelectedBook}
  {
  }
}
