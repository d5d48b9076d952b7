/** The current generator, main.ts: one snippet base per selected page that has an
    accepted code block, four hand-written bases in front of them, each rendered as
    a keyed block of text and joined into the snippet file. */
module Snippets {
  import opened Options
  import opened Text
  import opened Selector
  import opened Extraction

  /** `SnippetBase`; an absent `noURL` is `false`. */
  datatype SnippetBase = SnippetBase(resourceName: string, body: seq<string>, noURL: bool)

  /** `DOCUMENT_ROOT`, written as the registry host, the provider's documentation
      path and the resources section. */
  const RegistryHost: string := "https://registry.terraform.io"
  const AwsProviderDocs: string := "/providers/hashicorp/aws/latest"
  const DocumentRoot: string := RegistryHost + AwsProviderDocs + "/docs/resources"

  /** `defaultSnippetBases`: body lines already quoted and escaped by hand, no URL line. */
  const DefaultSnippetBases: seq<SnippetBase> := [
    SnippetBase("required_providers", [
      "\"terraform {\"",
      "\"\trequired_providers {\"",
      "\"\t\taws = {\"",
      "\"\t\t\tsource = \\\"hashicorp/aws\\\"\"",
      "\"\t\t\tversion = \\\"~> 5.0\\\"\"",
      "\"\t\t}\"",
      "\"\"",
      "\"\t\t#\tbackend \\\"s3\\\" {\"",
      "\"\t\t#\t\tbucket = \\\"bucket name\\\"\"",
      "\"\t\t#\t\tkey = \\\"path/to/my/key\\\"\"",
      "\"\t\t#\t\tregion = \\\"\\\"\"",
      "\"\t\t#\t}\"",
      "\"\t}\"",
      "\"}\""
    ], true),
    SnippetBase("aws", [
      "\"provider \\\"aws\\\" {\"",
      "\"\tregion = $1\"",
      "\"}\""
    ], true),
    SnippetBase("var", [
      "\"variable \\\"$1\\\" {\"",
      "\"\ttype = $2\"",
      "\"\tvalue = $3\"",
      "\"\tdefault = $3\"",
      "\"\tdescription = $4\"",
      "\"}\""
    ], true),
    SnippetBase("out", [
      "\"output \\\"$1\\\" {\"",
      "\"\tvalue = $2\"",
      "\"\tdescription = $3\"",
      "\"}\""
    ], true)
  ]

  /** What `extractSnippetBases` resolves to for one page. */
  function Extracted(doc: CachedDocument): Option<SnippetBase>
  {
    var resourceName := ResourceName(doc.name);
    var codeBlocks := MatchedBodies(resourceName, doc.codeNodes);
    if |codeBlocks| == 0 then None else Some(SnippetBase(resourceName, codeBlocks[0], false))
  }

  /** `extractSnippetBases`: run the visitor, then return null when it collected
      nothing and the first collected body otherwise. */
  method ExtractSnippetBases(doc: CachedDocument) returns (r: Option<SnippetBase>)
    ensures r == Extracted(doc)
    ensures r.None? <==>
      forall i :: 0 <= i < |doc.codeNodes| ==> !Accepts(ResourceName(doc.name), doc.codeNodes[i])
    ensures r.Some? ==>
      r.value.resourceName == ResourceName(doc.name) && !r.value.noURL &&
      exists k :: 0 <= k < |doc.codeNodes| && Accepts(ResourceName(doc.name), doc.codeNodes[k]) &&
        (forall j :: 0 <= j < k ==> !Accepts(ResourceName(doc.name), doc.codeNodes[j])) &&
        r.value.body == BodyLines(doc.codeNodes[k])
  {
    var resourceName := ResourceName(doc.name);
    var codeBlocks := CollectBlocks(resourceName, doc.codeNodes);
    FirstMatch(resourceName, doc.codeNodes);
    if |codeBlocks| == 0 {
      return None;
    }
    return Some(SnippetBase(resourceName, codeBlocks[0], false));
  }

  /** `files.map(extractSnippetBases)` once `Promise.all` has settled: one result per file, in file order. */
  function ExtractAll(docs: seq<CachedDocument>): seq<Option<SnippetBase>>
  {
    seq(|docs|, i requires 0 <= i < |docs| => Extracted(docs[i]))
  }

  lemma ExtractAllConcat(a: seq<CachedDocument>, b: seq<CachedDocument>)
    ensures ExtractAll(a + b) == ExtractAll(a) + ExtractAll(b)
  {
    forall i | 0 <= i < |a + b| ensures ExtractAll(a + b)[i] == (ExtractAll(a) + ExtractAll(b))[i] {
      if i < |a| {
        assert (a + b)[i] == a[i];
      } else {
        assert (a + b)[i] == b[i - |a|];
      }
    }
  }

  function Present(bases: seq<SnippetBase>): seq<Option<SnippetBase>>
  {
    seq(|bases|, i requires 0 <= i < |bases| => Some(bases[i]))
  }

  /** `[...defaultSnippetBases, ...snippetBases].filter(result => result !== null)`. */
  function Entries(dir: seq<CachedDocument>): seq<SnippetBase>
  {
    Somes(Present(DefaultSnippetBases) + ExtractAll(Select(dir)))
  }

  /** The line naming the documentation page; the trailing comma and line break belong to it. */
  function UrlLine(resourceName: string): string
  {
    "\t\t\t\"# " + DocumentRoot + "/" + resourceName + "\",\n"
  }

  /** The first line of an entry: its key. */
  function NameRow(resourceName: string): string
  {
    "\t\"" + resourceName + "\": {"
  }

  /** The second line of an entry: the completion prefix. */
  function PrefixRow(resourceName: string): string
  {
    "\t\t\"prefix\": \"" + resourceName + "\","
  }

  /** The URL line without its line break, as one line of the rendered entry. */
  function UrlRow(resourceName: string): string
  {
    "\t\t\t\"# " + DocumentRoot + "/" + resourceName + "\","
  }

  /** The template of main.ts:150-156. */
  function Render(b: SnippetBase): string
  {
    ("\t\"" + b.resourceName + "\": {\n") +
    ("\t\t\"prefix\": \"" + b.resourceName + "\",\n") +
    "\t\t\"body\": [\n" +
    (if b.noURL then "" else UrlLine(b.resourceName)) +
    ("\t\t\t" + Join(b.body, ",\n\t\t\t") + "\n") +
    "\t\t]\n" +
    "\t}"
  }

  function RenderAll(bases: seq<SnippetBase>): seq<string>
  {
    seq(|bases|, i requires 0 <= i < |bases| => Render(bases[i]))
  }

  /** The text written to the snippet file. */
  function Document(bases: seq<SnippetBase>): string
  {
    "{\n" + Join(RenderAll(bases), ",\n") + "\n}"
  }

  /** One whole run over a cache directory. */
  function Generate(dir: seq<CachedDocument>): string
  {
    Document(Entries(dir))
  }

  /** Rendering keeps the order of the bases: rendering `a + b` is rendering `a`, then `b`. */
  lemma RenderAllConcat(a: seq<SnippetBase>, b: seq<SnippetBase>)
    ensures RenderAll(a + b) == RenderAll(a) + RenderAll(b)
  {
    forall i | 0 <= i < |a + b|
      ensures RenderAll(a + b)[i] == (RenderAll(a) + RenderAll(b))[i]
    {
      if i < |a| {
        assert (a + b)[i] == a[i];
      } else {
        assert (a + b)[i] == b[i - |a|];
      }
    }
  }

  /** The file for `a + b` holds the blocks of `a`, a `,\n` separator, then the blocks of `b`. */
  lemma DocumentConcat(a: seq<SnippetBase>, b: seq<SnippetBase>)
    requires a != [] && b != []
    ensures Document(a + b) == "{\n" + (Join(RenderAll(a), ",\n") + ",\n" + Join(RenderAll(b), ",\n")) + "\n}"
  {
    RenderAllConcat(a, b);
    JoinAppend(RenderAll(a), RenderAll(b), ",\n");
  }

  /** The four defaults: their names, in order, and none has a URL line. */
  lemma DefaultsShape()
    ensures |DefaultSnippetBases| == 4
    ensures DefaultSnippetBases[0].resourceName == "required_providers"
    ensures DefaultSnippetBases[1].resourceName == "aws"
    ensures DefaultSnippetBases[2].resourceName == "var"
    ensures DefaultSnippetBases[3].resourceName == "out"
    ensures forall i :: 0 <= i < 4 ==> DefaultSnippetBases[i].noURL
  {
  }

  /** An extracted base always carries the URL line. */
  lemma ExtractedHasURL(doc: CachedDocument)
    requires Extracted(doc).Some?
    ensures !Extracted(doc).value.noURL
    ensures Extracted(doc).value.resourceName == ResourceName(doc.name)
  {
  }

  /** The defaults come first, then the non-null results in file order. */
  lemma EntriesSplit(dir: seq<CachedDocument>)
    ensures Entries(dir) == DefaultSnippetBases + Somes(ExtractAll(Select(dir)))
  {
    SomesConcat(Present(DefaultSnippetBases), ExtractAll(Select(dir)));
    SomesAllPresent(Present(DefaultSnippetBases));
  }

  /** The defaults come first, then the non-null results in file order; exactly
      the first four entries have no URL line. */
  lemma EntriesLayout(dir: seq<CachedDocument>)
    ensures Entries(dir) == DefaultSnippetBases + Somes(ExtractAll(Select(dir)))
    ensures forall i :: 0 <= i < |Entries(dir)| ==> (Entries(dir)[i].noURL <==> i < 4)
  {
    var results := ExtractAll(Select(dir));
    EntriesSplit(dir);
    forall i | 0 <= i < |Somes(results)| ensures !Somes(results)[i].noURL {
      var b := Somes(results)[i];
      SomesMembers(results, b);
      var k :| 0 <= k < |results| && results[k] == Some(b);
    }
  }

  /** Results of earlier files come before those of later files. */
  lemma EntriesFollowFileOrder(a: seq<CachedDocument>, b: seq<CachedDocument>)
    ensures Entries(a + b)
         == DefaultSnippetBases + Somes(ExtractAll(Select(a))) + Somes(ExtractAll(Select(b)))
  {
    var xa, xb := ExtractAll(Select(a)), ExtractAll(Select(b));
    assert Somes(ExtractAll(Select(a + b))) == Somes(xa) + Somes(xb) by {
      SelectConcat(a, b);
      ExtractAllConcat(Select(a), Select(b));
      SomesConcat(xa, xb);
    }
    EntriesSplit(a + b);
  }

  /** When no selected page has an accepted block (in particular, for an empty
      directory) the file holds exactly the four defaults. */
  lemma NoResultsOnlyDefaults(dir: seq<CachedDocument>)
    requires forall d :: d in Select(dir) ==> Extracted(d).None?
    ensures Entries(dir) == DefaultSnippetBases
    ensures Generate(dir) == Document(DefaultSnippetBases)
  {
    EntriesLayout(dir);
    SomesAllAbsent(ExtractAll(Select(dir)));
  }

  /** Duplicate names are not removed: two files whose names agree up to the
      first `.` (`s3_bucket.html.markdown`, `s3_bucket.md`) give two entries with one key. */
  lemma DuplicatesKept(d1: CachedDocument, d2: CachedDocument)
    requires IsPicked(d1.name) && IsPicked(d2.name)
    requires Extracted(d1).Some? && Extracted(d2).Some?
    requires ResourceName(d1.name) == ResourceName(d2.name)
    ensures Entries([d1, d2]) == DefaultSnippetBases + [Extracted(d1).value, Extracted(d2).value]
    ensures |Entries([d1, d2])| == 6 && Entries([d1, d2])[4].resourceName == Entries([d1, d2])[5].resourceName
  {
    EntriesSplit([d1, d2]);
    DefaultsShape();
    assert [d1, d2][1..] == [d2] && [d2][1..] == [];
    assert Select([d2]) == [d2];
    assert Select([d1, d2]) == [d1, d2];
    SomesAllPresent(ExtractAll([d1, d2]));
  }

  /** The rows for the body: each line indented, all but the last followed by a comma. */
  function BodyRows(body: seq<string>): seq<string>
  {
    if |body| == 0 then ["\t\t\t"]
    else if |body| == 1 then ["\t\t\t" + body[0]]
    else ["\t\t\t" + body[0] + ","] + BodyRows(body[1..])
  }

  /** A rendered entry, line by line. */
  function EntryLines(b: SnippetBase): seq<string>
  {
    [NameRow(b.resourceName), PrefixRow(b.resourceName), "\t\t\"body\": ["] +
    (if b.noURL then [] else [UrlRow(b.resourceName)]) +
    BodyRows(b.body) +
    ["\t\t]", "\t}"]
  }

  lemma {:induction false} BodyRowsJoin(body: seq<string>)
    ensures |BodyRows(body)| >= 1
    ensures Join(BodyRows(body), "\n") == "\t\t\t" + Join(body, ",\n\t\t\t")
  {
    if |body| > 1 {
      BodyRowsJoin(body[1..]);
    }
  }

  lemma {:induction false} BodyRowsFree(body: seq<string>)
    requires forall j :: 0 <= j < |body| ==> '\n' !in body[j]
    ensures |BodyRows(body)| == if |body| == 0 then 1 else |body|
    ensures forall j :: 0 <= j < |BodyRows(body)| ==> '\n' !in BodyRows(body)[j]
  {
    if |body| > 1 {
      BodyRowsFree(body[1..]);
    }
  }

  /** The rows of the body and the two closing lines, joined. */
  lemma RowsAndTailJoin(body: seq<string>)
    ensures Join(BodyRows(body) + ["\t\t]", "\t}"], "\n")
         == "\t\t\t" + Join(body, ",\n\t\t\t") + "\n" + ("\t\t]" + "\n") + "\t}"
  {
    BodyRowsJoin(body);
    JoinAppend(BodyRows(body), ["\t\t]", "\t}"], "\n");
    JoinCons("\t\t]", ["\t}"], "\n");
  }

  /** The row and its line break make up the URL line. */
  lemma UrlRowLine(n: string)
    ensures UrlRow(n) + "\n" == UrlLine(n)
  {
    var front := "\t\t\t\"# " + DocumentRoot + "/" + n;
    assert UrlRow(n) == front + "\",";
    assert UrlLine(n) == front + "\",\n";
    Associate(front, "\",", "\n");
    assert "\"," + "\n" == "\",\n";
  }

  /** The optional URL line in front of the rows. */
  lemma UrlAndRestJoin(b: SnippetBase, rest: seq<string>)
    requires |rest| >= 1
    ensures Join((if b.noURL then [] else [UrlRow(b.resourceName)]) + rest, "\n")
         == (if b.noURL then "" else UrlLine(b.resourceName)) + Join(rest, "\n")
  {
    if !b.noURL {
      JoinCons(UrlRow(b.resourceName), rest, "\n");
      UrlRowLine(b.resourceName);
    } else {
      assert [] + rest == rest;
    }
  }

  /** A line followed by a line break, where the line ends in a literal `last`. */
  lemma LineBreak(front: string, last: string, lastBreak: string)
    requires last + "\n" == lastBreak
    ensures front + last + "\n" == front + lastBreak
  {
    Associate(front, last, "\n");
  }

  /** The key line and the prefix line, each with its line break, as the template writes them. */
  lemma HeadRowsBreak(n: string)
    ensures NameRow(n) + "\n" == "\t\"" + n + "\": {\n"
    ensures PrefixRow(n) + "\n" == "\t\t\"prefix\": \"" + n + "\",\n"
  {
    LineBreak("\t\"" + n, "\": {", "\": {\n");
    LineBreak("\t\t\"prefix\": \"" + n, "\",", "\",\n");
  }

  /** The template as eight pieces, each a line and its break or a part of the body lines. */
  lemma RenderPieces(b: SnippetBase)
    ensures Render(b)
         == (NameRow(b.resourceName) + "\n") + (PrefixRow(b.resourceName) + "\n") + ("\t\t\"body\": [" + "\n") +
            (if b.noURL then "" else UrlLine(b.resourceName)) +
            ("\t\t\t" + Join(b.body, ",\n\t\t\t")) + "\n" + ("\t\t]" + "\n") + "\t}"
  {
    HeadRowsBreak(b.resourceName);
    assert "\t\t\"body\": [" + "\n" == "\t\t\"body\": [\n";
    assert "\t\t]" + "\n" == "\t\t]\n";
  }

  /** The template is exactly its lines joined with line breaks. */
  lemma RenderIsJoinedLines(b: SnippetBase)
    ensures Render(b) == Join(EntryLines(b), "\n")
  {
    var n := b.resourceName;
    var l0, l1, l2 := NameRow(n), PrefixRow(n), "\t\t\"body\": [";
    var url := if b.noURL then [] else [UrlRow(n)];
    var u := if b.noURL then "" else UrlLine(n);
    var rest := BodyRows(b.body) + ["\t\t]", "\t}"];
    var bodyText := "\t\t\t" + Join(b.body, ",\n\t\t\t");
    var mid := url + rest;
    assert Join(mid, "\n") == u + (bodyText + "\n" + ("\t\t]" + "\n") + "\t}") by {
      RowsAndTailJoin(b.body);
      UrlAndRestJoin(b, rest);
    }
    assert Join(EntryLines(b), "\n") == l0 + "\n" + (l1 + "\n" + (l2 + "\n" + Join(mid, "\n"))) by {
      assert EntryLines(b) == [l0] + ([l1] + ([l2] + mid));
      JoinCons(l2, mid, "\n");
      JoinCons(l1, [l2] + mid, "\n");
      JoinCons(l0, [l1] + ([l2] + mid), "\n");
    }
    RenderPieces(b);
    Regroup(l0 + "\n", l1 + "\n", l2 + "\n", u, bodyText, "\n", "\t\t]" + "\n", "\t}");
  }

  lemma Regroup(a: string, b: string, c: string, d: string, e: string, f: string, g: string, h: string)
    ensures a + b + c + d + e + f + g + h == a + (b + (c + (d + (e + f + g + h))))
  {
  }

  /** No line of a rendered entry holds a line break when neither the name nor any body line does. */
  lemma EntryLinesFree(b: SnippetBase)
    requires '\n' !in b.resourceName
    requires forall j :: 0 <= j < |b.body| ==> '\n' !in b.body[j]
    ensures |EntryLines(b)| == 5 + (if |b.body| == 0 then 1 else |b.body|) + (if b.noURL then 0 else 1)
    ensures forall j :: 0 <= j < |EntryLines(b)| ==> '\n' !in EntryLines(b)[j]
  {
    var n := b.resourceName;
    var head := [NameRow(n), PrefixRow(n), "\t\t\"body\": ["];
    var url := if b.noURL then [] else [UrlRow(n)];
    var rows := BodyRows(b.body);
    var tail := ["\t\t]", "\t}"];
    FixedRowsFree(n);
    assert forall j :: 0 <= j < |head| ==> '\n' !in head[j];
    assert forall j :: 0 <= j < |url| ==> '\n' !in url[j];
    assert forall j :: 0 <= j < |tail| ==> '\n' !in tail[j];
    BodyRowsFree(b.body);
    assert EntryLines(b) == head + url + rows + tail;
  }

  /** The template's own lines hold no line break when the name holds none. */
  lemma FixedRowsFree(n: string)
    requires '\n' !in n
    ensures '\n' !in NameRow(n) && '\n' !in PrefixRow(n) && '\n' !in UrlRow(n)
    ensures '\n' !in "\t\t\"body\": [" && '\n' !in "\t\t]" && '\n' !in "\t}"
  {
    UrlRowFree(n);
  }

  /** The URL line holds no line break when the name holds none. */
  lemma UrlRowFree(n: string)
    requires '\n' !in n
    ensures '\n' !in UrlRow(n)
  {
    assert '\n' !in DocumentRoot by {
      assert '\n' !in RegistryHost && '\n' !in AwsProviderDocs && '\n' !in "/docs/resources";
    }
  }

  /** Read line by line, a rendered entry is its name line, its prefix line, the
      opening of the body, the URL line exactly when `noURL` is false, one row per
      body line (one empty row for an empty body) and the two closing lines. */
  lemma RenderLines(b: SnippetBase)
    requires '\n' !in b.resourceName
    requires forall j :: 0 <= j < |b.body| ==> '\n' !in b.body[j]
    ensures Lines(Render(b)) == EntryLines(b)
    ensures |Lines(Render(b))|
         == 5 + (if |b.body| == 0 then 1 else |b.body|) + (if b.noURL then 0 else 1)
    ensures !b.noURL ==> Lines(Render(b))[3] == "\t\t\t\"# " + DocumentRoot + "/" + b.resourceName + "\","
  {
    RenderIsJoinedLines(b);
    EntryLinesFree(b);
    SplitJoin(EntryLines(b), '\n');
  }

  /** A page whose file name has no line break and that has an accepted block
      renders as an entry whose line 3 is the URL line, followed by one row per
      line of the first accepted block. */
  lemma ExtractedEntryLines(doc: CachedDocument)
    requires '\n' !in doc.name
    requires Extracted(doc).Some?
    ensures var b := Extracted(doc).value;
      |Lines(Render(b))| == 6 + |b.body| &&
      Lines(Render(b))[3] == "\t\t\t\"# " + DocumentRoot + "/" + ResourceName(doc.name) + "\","
    ensures exists k ::
      0 <= k < |doc.codeNodes| && Accepts(ResourceName(doc.name), doc.codeNodes[k]) &&
      (forall j :: 0 <= j < k ==> !Accepts(ResourceName(doc.name), doc.codeNodes[j])) &&
      |Extracted(doc).value.body| == Count(doc.codeNodes[k], '\n') + 1
  {
    var name := ResourceName(doc.name);
    var b := Extracted(doc).value;
    FirstMatch(name, doc.codeNodes);
    var k :| 0 <= k < |doc.codeNodes| && Accepts(name, doc.codeNodes[k]) &&
      (forall j :: 0 <= j < k ==> !Accepts(name, doc.codeNodes[j])) &&
      MatchedBodies(name, doc.codeNodes)[0] == BodyLines(doc.codeNodes[k]);
    BodyLinesShape(doc.codeNodes[k]);
    assert '\n' !in name by {
      assert forall i :: 0 <= i < |name| ==> name[i] == doc.name[i];
    }
    RenderLines(b);
  }

  /** The file is the rendered entries between `{` and `}`; with no selected page
      at all it is the four defaults alone. */
  lemma EmptyDirectory()
    ensures Generate([]) == "{\n" + Join(RenderAll(DefaultSnippetBases), ",\n") + "\n}"
    ensures |Entries([])| == 4
  {
    NoResultsOnlyDefaults([]);
    DefaultsShape();
  }
}
