# Blog post path derivation, modelled in Dafny

`create_post.py` creates a blog post skeleton. It takes the title from the
command line. It turns the title into a slug (`title.lower().replace(" ", "-")`)
and writes the post to `./_posts/<YYYY-MM-DD>-<slug>.markdown`, where the
date is today's date. This project models the part of the script that
computes that path. Every piece is a pure Dafny function:

- `py_string.dfy`, module `PyString`: the two Python string methods the slug
  uses. `Lower` is `str.lower()` for ASCII. `Replace` is `str.replace` with a
  non-empty pattern: it scans left to right and replaces matches without
  overlap.
- `iso_date.dfy`, module `IsoDate`: `Date` is a `datetime.date`, and `Valid`
  lists the dates that type can hold (years 1 to 9999, Gregorian month
  lengths). `IsoFormat` is `str(date)`, i.e. `"%04d-%02d-%02d"`.
  `ParseIsoDate` is its inverse and exists only to state the round trip.
- `create_post.dfy`, module `CreatePost`: the constant `DEFAULT_POSTS_PATH`,
  `get_title` over an explicit argument list, `format_title`, the two-argument
  POSIX `os.path.join`, and `get_file_path`. Today's date is a parameter
  there. `ParseFilePath` splits a post path back into its date and slug.
  `PostFilePath` chains lines 47-48 of the script: title from `argv`, then
  the path.

Three facts about the script shape the model:

- A missing title raises `RuntimeError("You need to add the title as a parameter")`.
  It is modelled as `Err(RuntimeError(...))`.
- `format_title` is total: every title has a slug, the empty title included.
- The path is built with `os.path.join`. The model derives the `/` between
  `./_posts` and the file name from the join. It does not assume it.

## Model

| member | source | states |
|---|---|---|
| `PyString.LowerChar` | create_post.py:17 | ASCII case folding never returns an upper-case letter. It shifts `A`-`Z` by 32 and leaves every other character alone. |
| `PyString.Lower` | create_post.py:17 | `lower()` keeps the length, and each output character is the folded input character. |
| `PyString.Replace` | create_post.py:17 | `str.replace` with a non-empty pattern keeps the length when the replacement is as long as the pattern, and changes nothing when the replacement is the pattern. Its pointwise behaviour for one character is proved in `ReplaceCharAt`. |
| `PyString.ReplaceCharAt` | create_post.py:17 | Replacing one character by one character keeps the length. Each position holds the replacement if it held the pattern, and otherwise is unchanged. |
| `IsoDate.IsLeap` | create_post.py:20 | The Gregorian rule that `datetime` uses: a leap year is divisible by 4, a multiple of 400 is always a leap year, and any other century year never is. |
| `IsoDate.LeapCycle` | create_post.py:20 | The leap-year pattern repeats every 400 years. |
| `IsoDate.DaysInMonth` | create_post.py:20 | A month has 28 to 31 days. It has 29 exactly for February of a Gregorian leap year. |
| `IsoDate.Valid` | create_post.py:20 | The dates a `datetime.date` can hold: years 1 to 9999, months 1 to 12, days 1 to the month's length. So a day is at most 31, and 29 February occurs only in a leap year. |
| `IsoDate.PadDigits` | create_post.py:20 | Zero-padded formatting gives exactly `width` characters, all of them decimal digits. |
| `IsoDate.ParseDigits` | create_post.py:20 | The value of `k` decimal digits is below `10^k`. |
| `IsoDate.ParsePadDigits` | create_post.py:20 | Reading back a zero-padded number gives the number. |
| `IsoDate.PadParseDigits` | create_post.py:20 | Re-padding the value of a digit string to its length gives the string back, leading zeros included. |
| `IsoDate.IsoFormat` | create_post.py:20 | `str(date)` is 10 characters long. It has `-` at indices 4 and 7 and decimal digits everywhere else. |
| `IsoDate.IsoFormatRoundTrip` | create_post.py:20 | Parsing the formatted date gives back the same year, month and day. |
| `IsoDate.ParseIsoDateSound` | create_post.py:20 | Any string the parser accepts yields a valid date, and formatting that date gives back the string. |
| `IsoDate.IsoFormatInjective` | create_post.py:20 | Distinct valid dates format to distinct strings. |
| `CreatePost.GetTitle` | create_post.py:10-14 | The result is `argv[1]` exactly when there are at least two entries. Otherwise it is the `RuntimeError` with the missing-title message. |
| `CreatePost.FormatTitle` | create_post.py:16-17 | The slug has the title's length. A space becomes `-` and every other character is ASCII-lower-cased. |
| `CreatePost.FormatTitleIsSlug` | create_post.py:17 | The slug has no spaces and no upper-case ASCII letters. |
| `CreatePost.FormatTitleKeeps` | create_post.py:17 | A character that is neither a space nor an upper-case letter is unchanged. This includes an existing hyphen. |
| `CreatePost.FormatTitleFixedPoints` | create_post.py:17 | `format_title(s) == s` exactly when `s` has no spaces and no upper-case letters (both directions). |
| `CreatePost.FormatTitleIdempotent` | create_post.py:17 | Formatting a slug again changes nothing. |
| `CreatePost.FormatTitleFromChars` | create_post.py:17 | A string that matches the title character by character under the slug map is its slug. |
| `CreatePost.DistinctTitlesCollide` | create_post.py:16-17 | Two different titles (`My Post`, `my-post`) get the same slug, so the second run overwrites the first post. |
| `CreatePost.JoinPath` | create_post.py:21-22 | POSIX `os.path.join(a, b)`: an absolute `b` replaces `a`. Otherwise the result starts with `a` and ends with `b`, and is at most one character longer than the two together. A `/` always stands between a non-empty `a` and `b`. |
| `CreatePost.GetFilePath` | create_post.py:19-22 | The path is `./_posts/` + ISO date + `-` + slug + `.markdown`. The file name starts with a digit, so it is not absolute and `./_posts` is kept. `./_posts` does not end in `/`, so the join adds one. |
| `CreatePost.GetFilePathShape` | create_post.py:19-22 | The path's length is 29 plus the slug's. It starts with `./_posts/`, then the date, then the slug, and ends with `.markdown`. |
| `CreatePost.GetFilePathRoundTrip` | create_post.py:19-22 | The date and the slug can be read back from the path. |
| `CreatePost.GetFilePathInjective` | create_post.py:19-22 | Two paths are equal only if their slugs and their dates are equal. For a fixed date, the path is injective in the slug. |
| `CreatePost.SamePathIffSameSlug` | create_post.py:19-22 | On one day two titles get the same file exactly when their slugs are equal (both directions). |
| `CreatePost.PostFilePath` | create_post.py:47-48 | The script fails exactly when no title was given, with the missing-title error. Otherwise it yields `./_posts/<date>-<slug of argv[1]>.markdown`. |
| `CreatePost.MyFirstPostSlug` | create_post.py:17 | `My First Post` becomes `my-first-post`. |
| `CreatePost.MyFirstPostDate` | create_post.py:20 | 15 January 2024 formats as `2024-01-15`. |
| `CreatePost.MyFirstPostPath` | create_post.py:19-22 | The slug `my-first-post` on 2024-01-15 gives `./_posts/2024-01-15-my-first-post.markdown`. |
| `CreatePost.MyFirstPostExample` | create_post.py:47-48 | Running with the title `My First Post` on 2024-01-15 gives the path `./_posts/2024-01-15-my-first-post.markdown`. |
| `CreatePost.NoTitleExample` | create_post.py:47 | Running with only the program name fails with the missing-title error. |

## Left out

- `PyString.Lower`: folds only the ASCII letters `A`-`Z`. Python's `str.lower()` also lower-cases non-ASCII letters, and for some of them (such as `İ`) it changes the string's length. Non-ASCII characters are left unchanged here.
- `PyString.Lower`: Dafny's `char` is a Unicode scalar value. A title that Python decoded from undecodable command-line bytes holds lone surrogates (`surrogateescape`), and such a title cannot be represented here. `lower()` and `replace` would leave those characters unchanged.
- `PyString.Replace`: models only a non-empty pattern, which is all the script uses (`" "`). Python's rule for an empty pattern (inserting between characters) is not modelled.
- `CreatePost.JoinPath`: models only the POSIX `posixpath.join` with two components. The Windows variant, with its drive letters and `\` separators, is not modelled.
- `datetime.date.today()` (create_post.py:20): a clock read. The date is a parameter that must be a valid `datetime.date`.
- `get_current_day` (create_post.py:24-27): reads the clock and the local timezone, and `%X` depends on the locale.
- `get_rendered_content` and `POST_TEMPLATE` (create_post.py:8, 29-40): rendering through Jinja2 and a template file that is not part of this model.
- `write_post` (create_post.py:42-44): file I/O (open, truncate, write, close).
- The `__main__` block (create_post.py:46-51): reading `sys.argv`, printing the path, and running the I/O steps in order. Only the path computation of lines 47-48 is modelled, as `PostFilePath`.
