# Terraform AWS snippet generator — Dafny model

This project models the generator that turns cached Terraform AWS provider
documentation pages into one snippet file for an editor. There are two versions
of the generator script. `main.ts` is the current one. `src/main.ts` is an older
one. The model covers both. A run of the generator does four things:

1. **Selection.** It keeps the cache entries whose file name contains one of 32
   service fragments, ignoring case (`Selector`).
2. **Extraction.** For each kept page it derives the resource name (the file name
   up to the first `.`). It walks the page's code blocks in document order
   and collects every block that starts with `resource "aws_<name>"`. The first
   collected block becomes the entry body. If no block is collected the page
   yields `null` (`Extraction`, and the methods `ExtractSnippetBases` / `ExtractCode`).
3. **Escaping.** Each line of that block gets a backslash before every `"` that has
   a preceding character that is not `\`. Then the line is wrapped in quotes
   (`Escaping`).
4. **Assembly.** It renders each entry as a keyed text block and joins the blocks
   between braces. `main.ts` puts four hand-written entries first. Those entries
   carry no documentation-URL line, while every extracted entry does (`Snippets`).
   `src/main.ts` has no hand-written entries and always writes the URL line
   (`LegacySnippets`).

Lines 18-91 of the two scripts agree up to names and comments. The older script
renames the result type, the extraction function and its `codeBlocks` list, and
its result type has no optional `noURL` field. That range covers the fragment list, the filter,
the resource name, the header test, the escape and the visitor. These parts are
modelled once, and both versions use them. The markdown parser is
outside the model. A page is a `CachedDocument`: its file name plus the values of
its code nodes in document order.

Modelling notes:
- The escape regex `/(?<=[^\\])"/g` looks behind into the *original* line. So
  `Esc` carries whether the previous original character exists and is not a
  backslash. A quote at index 0 is never escaped, because the lookbehind needs
  a preceding character (`LeadingQuoteKept`).
- Escaping has no exact inverse. `a\"` is the escape of both `a"` and `a\"`.
  Its partner is `Unescape`, which reads every `\"` as `"`. Escaping leaves the
  `Unescape` reading of a line unchanged, and it is idempotent.
- The case-insensitive filter uses ASCII folding. All fragments are ASCII. Without
  the `u` flag, JavaScript's case-insensitive matching never folds a non-ASCII
  character onto an ASCII one, so ASCII folding gives the same answer.
- JavaScript strings are UTF-16 code units, and Dafny strings are characters. The
  only characters the code splits or tests on are `\n`, `.`, `"` and `\`, so both
  readings agree.
- `DocumentRoot` has the same value as `DOCUMENT_ROOT`. It is written as three
  concatenated parts (host, provider path, `/docs/resources`), which keeps the
  proof that it holds no line break small.

The operations are the functions below. The lemmas in the table state their
properties.
- `Selector.IsPicked`, `Selector.Select`: the file filter (main.ts:52-53).
- `Extraction.ResourceName`: the resource name (main.ts:61).
- `Extraction.Accepts`: the header test (main.ts:69).
- `Escaping.Escaped`, `Escaping.Quote`, `Extraction.BodyLines`: the per-line
  transform (main.ts:71).
- `Extraction.MatchedBodies`: what the visitor collects (main.ts:65-76).
- `Snippets.Extracted`: one page's result (main.ts:60-91).
- `Snippets.DefaultSnippetBases`: the hand-written entries (main.ts:93-145).
- `Snippets.Entries`: defaults followed by the non-null results (main.ts:146-148).
- `Snippets.Render`: the template of one entry (main.ts:149-156). `Snippets.EntryLines`
  lists the same entry line by line.
- `Snippets.Document`, `Snippets.Generate`: the written file (main.ts:162).
- `LegacySnippets.Results`, `LegacySnippets.Render`, `LegacySnippets.Document`:
  the older assembly (src/main.ts:93-109).

## Model

| member | source | states |
|---|---|---|
| `Selector.OccursAt` | main.ts:52-53 | the regex search for one fragment succeeds iff the fragment equals, ignoring ASCII case, the slice of the name at some index |
| `Selector.UpperCaseNamePicked` | main.ts:52 | matching ignores case: `EC2_Instance.html.markdown` is picked through the fragment `ec2` |
| `Selector.SelectMembers` | main.ts:53 | a document is selected iff it is in the directory and its name contains some fragment |
| `Selector.SelectConcat` | main.ts:53 | selection keeps directory order: selecting `a + b` is selecting `a`, then `b` |
| `Selector.SelectMultiplicity` | main.ts:52-53 | a picked entry appears exactly as often as in the directory, however many fragments it matches; others never appear |
| `Extraction.ResourceName` | main.ts:61 | the resource name is a prefix of the file name, holds no `.`, and is followed by `.` when shorter than the file name |
| `Extraction.ResourceNameUnique` | main.ts:61 | those three facts determine the resource name |
| `Text.SplitHead` | main.ts:61 | the first piece of a split is the longest separator-free prefix |
| `Extraction.LongerTypeRejected` | main.ts:69 | because of the closing quote, a block declaring `aws_<name><more>` is not accepted for `<name>` |
| `Extraction.Ec2InstanceNotEc2` | main.ts:69 | `resource "aws_ec2_instance" ...` is not accepted for the name `ec2` |
| `Extraction.AcceptedNameUnique` | main.ts:69 | for quote-free names, at most one resource name accepts a given block |
| `Text.SplitCount` | main.ts:71 | `split('\n')` yields one more piece than the text has line breaks |
| `Text.SplitPiecesFree` | main.ts:71 | no piece of a split contains the separator |
| `Text.JoinSplit` | main.ts:71 | joining the pieces with the separator gives back the text |
| `Text.SplitJoin` | main.ts:149-156 | splitting on the separator undoes a join of separator-free parts |
| `Escaping.Quote` | main.ts:71 | a body entry starts and ends with a quote |
| `Escaping.EscapedStep` | main.ts:71 | scanning left to right, each character adds `\"` if it is a quote after a non-backslash original character, and itself otherwise |
| `Escaping.EscapedLength` | main.ts:71 | the escaped line is longer by exactly the number of escapable quotes |
| `Escaping.LeadingQuoteKept` | main.ts:71 | a quote at index 0 stays unescaped, so the entry then starts with two quotes |
| `Escaping.EscapedNoBareQuote` | main.ts:71 | in an escaped line, every quote past index 0 has a backslash before it, and the first character is a quote iff it was one |
| `Escaping.EscapedIdempotent` | main.ts:71 | escaping an escaped line changes nothing |
| `Escaping.QuoteFreeUnchanged` | main.ts:71 | a line without quotes is unchanged |
| `Escaping.UnescapeEscaped` | main.ts:71 | escaping only inserts backslashes before quotes: reading `\"` as `"` gives the same text before and after |
| `Escaping.QuoteUnquote` | main.ts:71 | unwrapping an entry gives the escaped line; wrapping adds no line break |
| `Escaping.QuoteInterior` | main.ts:71 | inside an entry for a non-empty line, the only quote without a backslash before it can be at index 1, and is there iff the line starts with a quote |
| `Extraction.BodyLinesShape` | main.ts:71 | a block gives one entry per `\n`-separated line, in order; entry i unwraps to line i escaped and holds no line break |
| `Extraction.BodyLinesRoundTrip` | main.ts:71 | unwrapping and unescaping the entries and joining them with `\n` gives the block, read with `\"` as `"` |
| `Extraction.CollectBlocks` | main.ts:65-76 | the visitor loop collects exactly the transformed accepted blocks, in document order |
| `Extraction.FirstMatch` | main.ts:85-89 | nothing is collected iff no block is accepted; otherwise the first collected body comes from the first accepted block |
| `Extraction.MatchedPrefix` | main.ts:72 | blocks visited later only append to what is collected |
| `Extraction.LaterBlocksIgnored` | main.ts:85-89 | once a block is accepted, later blocks do not change the chosen body |
| `Options.SomesConcat` | main.ts:148 | dropping nulls keeps order and distributes over concatenation |
| `Options.SomesMembers` | main.ts:148 | a value survives the null filter iff it was present |
| `Snippets.ExtractSnippetBases` | main.ts:60-91 | returns null iff no code block starts with the header; otherwise the resource name, no `noURL`, and the lines of the first accepted block |
| `Snippets.DefaultsShape` | main.ts:93-145 | four defaults, `required_providers`, `aws`, `var`, `out` in that order, all with `noURL` |
| `Snippets.ExtractedHasURL` | main.ts:87-90 | an extracted base never sets `noURL` and is keyed by the resource name |
| `Snippets.EntriesSplit` | main.ts:147-148 | the entries are the four defaults followed by the non-null results of the selected files |
| `Snippets.EntriesLayout` | main.ts:147-153 | an entry lacks the URL line iff it is one of the first four |
| `Snippets.EntriesFollowFileOrder` | main.ts:146-148 | results of earlier files come before results of later files |
| `Snippets.NoResultsOnlyDefaults` | main.ts:146-162 | with no accepted block among the selected pages, the file holds exactly the four defaults |
| `Snippets.DuplicatesKept` | main.ts:147-148 | two extracted pages whose names agree up to the first `.` give the two last of six entries, in order, with the same key: duplicates are not removed |
| `Snippets.RenderIsJoinedLines` | main.ts:149-156 | the template equals its lines joined with line breaks |
| `Snippets.RenderLines` | main.ts:149-156 | line by line, an entry is name, prefix, body opening, the URL line iff not `noURL`, one row per body line, and two closers |
| `Snippets.ExtractedEntryLines` | main.ts:146-156 | an extracted page's entry has the URL line at line 3, and one row per line of its first accepted block (no earlier block is accepted) |
| `Snippets.RenderAllConcat` | main.ts:149-156 | the entries are rendered one by one, in order: rendering `a + b` is rendering `a`, then `b` |
| `Snippets.DocumentConcat` | main.ts:162 | the file for `a + b` is the blocks of `a`, one `,\n` separator, then the blocks of `b`, all between `{\n` and `\n}` |
| `Snippets.EmptyDirectory` | main.ts:162 | an empty cache directory gives `{`, the four rendered defaults joined by `,\n`, and `}` |
| `LegacySnippets.ExtractCode` | src/main.ts:60-91 | returns null iff no code block starts with the header; otherwise the resource name and the lines of the first accepted block |
| `LegacySnippets.SameExtraction` | src/main.ts:60-91 | the older extraction yields a result exactly when the current one does, with the same name and body |
| `LegacySnippets.RenderAsCurrent` | src/main.ts:96-103 | an older entry renders like a current entry without `noURL`, so it always has the URL line |
| `LegacySnippets.SomesMap` | src/main.ts:94-96 | dropping nulls commutes with turning results into bases |
| `LegacySnippets.CurrentMinusDefaults` | src/main.ts:93-109 | the older file is the current file without the four hand-written entries |
| `LegacySnippets.NoResultsEmptyObject` | src/main.ts:109 | with no result, the older file is `{\n\n}` |

## Left out

- File system access is not modelled. This covers `existsSync`, `readdirSync`,
  `readFileSync`, `mkdirSync` and `writeFileSync`. The directory listing is an
  input, and the written text is the value of `Generate`.
- The exit when `./tmp` is missing (main.ts:11-14) is not modelled. It is a
  process side effect.
- The markdown pipeline (`remark`, `remark-parse`, `remark-html`,
  `unist-util-visit`) is outside the model. Its output is taken as given: the
  code-node values of a page, in document order. A parse failure, which would
  abort the whole run, is not modelled either.
- `Promise.all` and the asynchronous calls are not modelled. The model keeps only
  the fact that results follow the order of `files`.
- `chalk` and the `console.log` progress lines are not modelled.
- `Extraction.Accepts` is a literal prefix test. The source splices the resource
  name into a regular expression without escaping it. The two agree only when the
  name has no regex metacharacters.
- No property says the output is valid JSON. The code does not make it so. A
  leading quote stays unescaped, as do a trailing backslash, other backslash
  sequences and raw tabs.
