/**
 The path logic of the blog post generator: the title is taken from the
 argument list, turned into a slug, and the post is written to
 `./_posts/<YYYY-MM-DD>-<slug>.markdown`. The date is a parameter here
 instead of a read of the clock.
 */
module CreatePost {
  import opened PyString
  import opened IsoDate

  const DefaultPostsPath := "./_posts"
  const MarkdownExtension := ".markdown"
  const MissingTitleMessage := "You need to add the title as a parameter"

  /** Length of `./_posts/` followed by `YYYY-MM-DD-`. */
  const SlugStart := 20

  datatype Error = RuntimeError(message: string)

  datatype Result<T> = Ok(value: T) | Err(error: Error)

  /** `get_title`: the first argument after the program name, or the error. */
  function GetTitle(argv: seq<string>): (r: Result<string>)
    ensures r.Ok? <==> |argv| >= 2
    ensures r.Ok? ==> r.value == argv[1]
    ensures r.Err? ==> r.error == RuntimeError(MissingTitleMessage)
  {
    if |argv| >= 2 then Ok(argv[1]) else Err(RuntimeError(MissingTitleMessage))
  }

  /** What `format_title` does to one character of the title. */
  function SlugChar(c: char): char {
    if c == ' ' then '-' else LowerChar(c)
  }

  /** `format_title`: `title.lower().replace(" ", "-")`. */
  function FormatTitle(title: string): (slug: string)
    ensures |slug| == |title|
    ensures forall i :: 0 <= i < |title| ==> slug[i] == SlugChar(title[i])
  {
    var lowered := Lower(title);
    ReplaceCharAt(lowered, ' ', '-');
    Replace(lowered, " ", "-")
  }

  /** A string that `format_title` could have produced. */
  predicate IsSlug(s: string) {
    forall i :: 0 <= i < |s| ==> s[i] != ' ' && !IsUpper(s[i])
  }

  /** The slug has no spaces and no upper-case ASCII letters. */
  lemma FormatTitleIsSlug(title: string)
    ensures IsSlug(FormatTitle(title))
  {
    var slug := FormatTitle(title);
    forall i | 0 <= i < |slug|
      ensures slug[i] != ' ' && !IsUpper(slug[i])
    {
      assert slug[i] == SlugChar(title[i]);
    }
  }

  /** Characters that are neither a space nor an upper-case letter, hyphens included, are kept. */
  lemma FormatTitleKeeps(title: string, i: int)
    requires 0 <= i < |title|
    requires title[i] != ' ' && !IsUpper(title[i])
    ensures FormatTitle(title)[i] == title[i]
  {
    assert FormatTitle(title)[i] == SlugChar(title[i]);
  }

  /** The slugs are exactly the fixed points of `format_title`. */
  lemma FormatTitleFixedPoints(s: string)
    ensures FormatTitle(s) == s <==> IsSlug(s)
  {
    if IsSlug(s) {
      forall i | 0 <= i < |s|
        ensures FormatTitle(s)[i] == s[i]
      {
        FormatTitleKeeps(s, i);
      }
    } else {
      var i :| 0 <= i < |s| && (s[i] == ' ' || IsUpper(s[i]));
      assert FormatTitle(s)[i] == SlugChar(s[i]) != s[i];
    }
  }

  /** Formatting a title twice gives the same slug as formatting it once. */
  lemma FormatTitleIdempotent(title: string)
    ensures FormatTitle(FormatTitle(title)) == FormatTitle(title)
  {
    FormatTitleIsSlug(title);
    FormatTitleFixedPoints(FormatTitle(title));
  }

  predicate IsAbsolute(path: string) {
    |path| > 0 && path[0] == '/'
  }

  /**
   `os.path.join(a, b)` for two components, as POSIX `posixpath.join` does it:
   an absolute `b` discards `a`; otherwise `a` is kept in front, `b` is kept at
   the end, at most one separator is added, and a separator always stands
   between a non-empty `a` and `b`.
   */
  function JoinPath(a: string, b: string): (p: string)
    ensures IsAbsolute(b) ==> p == b
    ensures !IsAbsolute(b) ==> |a| + |b| <= |p| <= |a| + |b| + 1
    ensures !IsAbsolute(b) ==> a <= p && p[|p| - |b|..] == b
    ensures !IsAbsolute(b) && a != [] ==> '/' in p[|a| - 1..|p| - |b|]
  {
    if IsAbsolute(b) then b
    else if a == [] || a[|a| - 1] == '/' then
      var p := a + b;
      assert a != [] ==> p[|a| - 1..|p| - |b|] == [a[|a| - 1]];
      p
    else
      var p := a + "/" + b;
      assert p[|a| - 1..|p| - |b|] == [a[|a| - 1], '/'];
      p
  }

  /** `get_file_path`, with `today` in place of `datetime.date.today()`. */
  function GetFilePath(formattedTitle: string, today: Date): (path: string)
    requires Valid(today)
    ensures path == "./_posts/" + IsoFormat(today) + "-" + formattedTitle + ".markdown"
  {
    JoinPath(DefaultPostsPath, IsoFormat(today) + "-" + formattedTitle + MarkdownExtension)
  }

  /**
   Splits a post path back into its date and slug; `None` when the path
   does not have the shape `./_posts/YYYY-MM-DD-<slug>.markdown`.
   */
  function ParseFilePath(path: string): Option<(Date, string)> {
    if |path| >= SlugStart + |MarkdownExtension|
       && path[..SlugStart - 11] == DefaultPostsPath + "/"
       && path[SlugStart - 1] == '-'
       && path[|path| - |MarkdownExtension|..] == MarkdownExtension
    then
      match ParseIsoDate(path[SlugStart - 11..SlugStart - 1])
      case Some(d) => Some((d, path[SlugStart..|path| - |MarkdownExtension|]))
      case None => None
    else None
  }

  /** The path starts with the posts directory and ends with the extension. */
  lemma GetFilePathShape(slug: string, today: Date)
    requires Valid(today)
    ensures |GetFilePath(slug, today)| == SlugStart + |slug| + |MarkdownExtension|
    ensures GetFilePath(slug, today)[..9] == "./_posts/"
    ensures GetFilePath(slug, today)[9..19] == IsoFormat(today)
    ensures GetFilePath(slug, today)[SlugStart..SlugStart + |slug|] == slug
    ensures GetFilePath(slug, today)[SlugStart + |slug|..] == ".markdown"
  {
  }

  /** The date and the slug can be read back from the path. */
  lemma GetFilePathRoundTrip(slug: string, today: Date)
    requires Valid(today)
    ensures ParseFilePath(GetFilePath(slug, today)) == Some((today, slug))
  {
    GetFilePathShape(slug, today);
    IsoFormatRoundTrip(today);
  }

  /** Different slugs or different dates never share a path. */
  lemma GetFilePathInjective(slug1: string, today1: Date, slug2: string, today2: Date)
    requires Valid(today1) && Valid(today2)
    requires GetFilePath(slug1, today1) == GetFilePath(slug2, today2)
    ensures slug1 == slug2 && today1 == today2
  {
    GetFilePathRoundTrip(slug1, today1);
    GetFilePathRoundTrip(slug2, today2);
  }

  /** Lines 47-48 of the script: the title from `argv`, then the path derived from it. */
  function PostFilePath(argv: seq<string>, today: Date): (r: Result<string>)
    requires Valid(today)
    ensures r.Err? <==> |argv| < 2
    ensures r.Err? ==> r.error == RuntimeError(MissingTitleMessage)
    ensures r.Ok? ==> r.value == "./_posts/" + IsoFormat(today) + "-" + FormatTitle(argv[1]) + ".markdown"
  {
    match GetTitle(argv)
    case Err(e) => Err(e)
    case Ok(title) => Ok(GetFilePath(FormatTitle(title), today))
  }

  /** On one day two titles get the same post file exactly when their slugs agree. */
  lemma SamePathIffSameSlug(title1: string, title2: string, today: Date)
    requires Valid(today)
    ensures GetFilePath(FormatTitle(title1), today) == GetFilePath(FormatTitle(title2), today)
        <==> FormatTitle(title1) == FormatTitle(title2)
  {
    if GetFilePath(FormatTitle(title1), today) == GetFilePath(FormatTitle(title2), today) {
      GetFilePathInjective(FormatTitle(title1), today, FormatTitle(title2), today);
    }
  }

  /** A string is the slug of a title when it agrees with it character by character. */
  lemma FormatTitleFromChars(title: string, expected: string)
    requires |title| == |expected|
    requires forall i :: 0 <= i < |title| ==> SlugChar(title[i]) == expected[i]
    ensures FormatTitle(title) == expected
  {
  }

  // The example lemmas below take the literal inputs as parameters fixed by
  // `requires`: stated over the literals themselves, the solver unfolds the
  // recursive functions on them and the proofs become unstable.

  /** "My First Post" slugs to "my-first-post". */
  lemma MyFirstPostSlug(title: string)
    requires title == "My First Post"
    ensures FormatTitle(title) == "my-first-post"
  {
    FormatTitleFromChars(title, "my-first-post");
  }

  /** 15 January 2024 formats as "2024-01-15". */
  lemma MyFirstPostDate()
    ensures IsoFormat(Date(2024, 1, 15)) == "2024-01-15"
  {
    assert PadDigits(2024, 4) == "2024";
    assert PadDigits(1, 2) == "01";
    assert PadDigits(15, 2) == "15";
  }

  /** Solver helper with no claim about the script: the literal concatenation, proved in isolation. */
  lemma MyFirstPostPathText()
    ensures "./_posts/" + "2024-01-15" + "-" + "my-first-post" + ".markdown"
         == "./_posts/2024-01-15-my-first-post.markdown"
  {
  }

  /** The slug "my-first-post" on 2024-01-15 gives the expected path. */
  lemma MyFirstPostPath(slug: string, today: Date)
    requires slug == "my-first-post" && today == Date(2024, 1, 15)
    ensures GetFilePath(slug, today) == "./_posts/2024-01-15-my-first-post.markdown"
  {
    MyFirstPostDate();
    MyFirstPostPathText();
  }

  /** "My First Post" on 2024-01-15 is written to `./_posts/2024-01-15-my-first-post.markdown`. */
  lemma MyFirstPostExample(argv: seq<string>, today: Date)
    requires argv == ["create_post.py", "My First Post"] && today == Date(2024, 1, 15)
    ensures PostFilePath(argv, today) == Ok("./_posts/2024-01-15-my-first-post.markdown")
  {
    MyFirstPostSlug(argv[1]);
    MyFirstPostPath(FormatTitle(argv[1]), today);
  }

  /** Without a title argument the script stops with the missing-title error. */
  lemma NoTitleExample()
    ensures PostFilePath(["create_post.py"], Date(2024, 1, 15))
         == Err(RuntimeError("You need to add the title as a parameter"))
  {
  }

  /** Two different titles can share a slug, so the second post overwrites the first. */
  lemma DistinctTitlesCollide()
    ensures "My Post" != "my-post"
    ensures FormatTitle("My Post") == FormatTitle("my-post")
  {
    assert FormatTitle("My Post") == "my-post";
    assert FormatTitle("my-post") == "my-post";
  }
}
