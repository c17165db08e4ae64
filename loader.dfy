/**
 * `load_any`: the reader for a file is chosen from the lower-cased suffix of its name. The four
 * readers (pypdf, markdown + BeautifulSoup, BeautifulSoup, plain read) are parameters.
 */
module Loader {
  import opened PyStr

  /** A `pathlib` path, as the sequence of its parts. */
  datatype FilePath = FilePath(parts: seq<string>)

  /** The four readers `load_any` chooses between. */
  datatype Readers = Readers(
    pdf: FilePath -> string,
    markdown: FilePath -> string,
    html: FilePath -> string,
    text: FilePath -> string)

  datatype Format = Pdf | Markdown | Html | PlainText

  /** `path.name`: the final part, or "" for an empty path. */
  function Name(path: FilePath): string {
    if path.parts == [] then "" else path.parts[|path.parts| - 1]
  }

  /** `name.rfind(".")`: the index of the last dot, or -1 when there is none. */
  function LastDot(name: string): (i: int)
    ensures -1 <= i < |name|
    ensures 0 <= i ==> name[i] == '.'
    ensures forall j :: i < j < |name| ==> name[j] != '.'
  {
    if name == [] then -1
    else if name[|name| - 1] == '.' then |name| - 1
    else LastDot(name[..|name| - 1])
  }

  /** `PurePath.suffix`: from the last dot to the end, provided that dot is neither the first nor
      the last character of the name; "" otherwise. */
  function Suffix(name: string): (r: string)
    ensures r == [] || (2 <= |r| < |name| && r == name[|name| - |r|..] && r[0] == '.')
    ensures forall j :: 0 < j < |r| ==> r[j] != '.'
  {
    var i := LastDot(name);
    if 0 < i < |name| - 1 then name[i..] else ""
  }

  /** The dispatch of `load_any` on the lower-cased suffix. `.txt` and every unknown suffix are
      both read as plain text. */
  function FormatOf(name: string): (f: Format)
    ensures Suffix(name) == "" ==> f == PlainText
  {
    FormatOfSuffix(LowerAscii(Suffix(name)))
  }

  /** The table of suffixes, already lower-cased. */
  function FormatOfSuffix(s: string): Format {
    if s == ".pdf" then Pdf
    else if s == ".md" then Markdown
    else if s == ".html" || s == ".htm" then Html
    else PlainText
  }

  /** `load_any(path)`. */
  function LoadAny(path: FilePath, readers: Readers): (r: string)
    ensures LowerAscii(Suffix(Name(path))) == ".pdf" ==> r == readers.pdf(path)
    ensures LowerAscii(Suffix(Name(path))) == ".md" ==> r == readers.markdown(path)
    ensures LowerAscii(Suffix(Name(path))) in {".html", ".htm"} ==> r == readers.html(path)
    ensures LowerAscii(Suffix(Name(path))) !in {".pdf", ".md", ".html", ".htm"} ==> r == readers.text(path)
  {
    match FormatOf(Name(path))
    case Pdf => readers.pdf(path)
    case Markdown => readers.markdown(path)
    case Html => readers.html(path)
    case PlainText => readers.text(path)
  }

  /** A name made of a non-empty stem, a dot and an extension without dots has that extension as
      its suffix, whatever dots the stem holds. */
  lemma SuffixOfExtension(stem: string, ext: string)
    requires stem != [] && ext != [] && '.' !in ext
    ensures Suffix(stem + "." + ext) == "." + ext
  {
    var name := stem + "." + ext;
    LastDotAfter(stem + ".", ext);
    assert name[|stem|..] == "." + ext;
  }

  lemma {:induction false} LastDotAfter(a: string, b: string)
    requires '.' !in b
    ensures LastDot(a + b) == LastDot(a)
  {
    if b != [] {
      assert (a + b)[..|a + b| - 1] == a + b[..|b| - 1];
      LastDotAfter(a, b[..|b| - 1]);
    } else {
      assert a + b == a;
    }
  }

  /** A name without a dot, a dot-file such as ".pdf" and a name ending in a dot have no suffix,
      so all three are read as plain text. */
  lemma NoSuffix(name: string)
    requires '.' !in name || (name[0] == '.' && '.' !in name[1..]) || (name != [] && name[|name| - 1] == '.')
    ensures Suffix(name) == [] && FormatOf(name) == PlainText
  {
    if '.' !in name {
      LastDotAfter([], name);
      assert [] + name == name;
    } else if name[0] == '.' && '.' !in name[1..] {
      LastDotAfter(".", name[1..]);
      assert "." + name[1..] == name;
    }
  }

  /** `lower` changes no dot and makes none, so the last dot does not move. */
  lemma {:induction false} LastDotLower(name: string)
    ensures LastDot(LowerAscii(name)) == LastDot(name)
  {
    if name != [] {
      assert LowerAscii(name)[..|name| - 1] == LowerAscii(name[..|name| - 1]);
      LastDotLower(name[..|name| - 1]);
    }
  }

  /** The suffix of the lower-cased name is the lower-cased suffix. */
  lemma SuffixLower(name: string)
    ensures Suffix(LowerAscii(name)) == LowerAscii(Suffix(name))
  {
    LastDotLower(name);
    var i := LastDot(name);
    if 0 < i < |name| - 1 {
      LowerAsciiDrop(name, i);
    }
  }

  /** The dispatch ignores the case of the name: `REPORT.PDF` and `report.pdf` are read alike. */
  lemma FormatIgnoresCase(name: string)
    ensures FormatOf(LowerAscii(name)) == FormatOf(name)
  {
    SuffixLower(name);
    LowerAsciiIdempotent(Suffix(name));
    assert LowerAscii(Suffix(LowerAscii(name))) == LowerAscii(Suffix(name));
  }

  /** An upper-case extension is recognised. */
  lemma UpperCasePdf()
    ensures FormatOf("Guide.PDF") == Pdf
  {
    SuffixOfExtension("Guide", "PDF");
    assert "Guide" + "." + "PDF" == "Guide.PDF";
    var l := LowerAscii(".PDF");
    assert l[0] == '.' && l[1] == 'p' && l[2] == 'd' && l[3] == 'f';
    assert l == ".pdf";
  }

  /** Only the last dot counts: dots inside the stem are ignored. */
  lemma LastExtensionCounts()
    ensures FormatOf("notes.v2.md") == Markdown
    ensures FormatOf("page.html.txt") == PlainText
  {
    SuffixOfExtension("notes.v2", "md");
    assert "notes.v2" + "." + "md" == "notes.v2.md";
    SuffixOfExtension("page.html", "txt");
    assert "page.html" + "." + "txt" == "page.html.txt";
  }

  /** A dot-file named after a format has no suffix and is read as plain text. */
  lemma DotFileIsPlainText()
    ensures FormatOf(".pdf") == PlainText
  {
    NoSuffix(".pdf");
  }
}
