/** The older generator, src/main.ts: the same selection and extraction, no
    hand-written entries, and every rendered entry carries the URL line. */
module LegacySnippets {
  import opened Options
  import opened Text
  import opened Selector
  import opened Extraction
  import Snippets

  /** `extractResult`. */
  datatype ExtractResult = ExtractResult(resourceName: string, body: seq<string>)

  /** What `extractCode` resolves to for one page. */
  function Extracted(doc: CachedDocument): Option<ExtractResult>
  {
    var resourceName := ResourceName(doc.name);
    var codes := MatchedBodies(resourceName, doc.codeNodes);
    if |codes| == 0 then None else Some(ExtractResult(resourceName, codes[0]))
  }

  /** `extractCode`: run the visitor, then return null when it collected nothing
      and the first collected body otherwise. */
  method ExtractCode(doc: CachedDocument) returns (r: Option<ExtractResult>)
    ensures r == Extracted(doc)
    ensures r.None? <==>
      forall i :: 0 <= i < |doc.codeNodes| ==> !Accepts(ResourceName(doc.name), doc.codeNodes[i])
    ensures r.Some? ==>
      r.value.resourceName == ResourceName(doc.name) &&
      exists k :: 0 <= k < |doc.codeNodes| && Accepts(ResourceName(doc.name), doc.codeNodes[k]) &&
        (forall j :: 0 <= j < k ==> !Accepts(ResourceName(doc.name), doc.codeNodes[j])) &&
        r.value.body == BodyLines(doc.codeNodes[k])
  {
    var resourceName := ResourceName(doc.name);
    var codes := CollectBlocks(resourceName, doc.codeNodes);
    FirstMatch(resourceName, doc.codeNodes);
    if |codes| == 0 {
      return None;
    }
    return Some(ExtractResult(resourceName, codes[0]));
  }

  /** `results.filter(result => result !== null)`, over the selected files in order. */
  function Results(dir: seq<CachedDocument>): seq<ExtractResult>
  {
    var docs := Select(dir);
    Somes(seq(|docs|, i requires 0 <= i < |docs| => Extracted(docs[i])))
  }

  /** The template of src/main.ts:97-103: the URL line is always there. */
  function Render(r: ExtractResult): string
  {
    ("\t\"" + r.resourceName + "\": {\n") +
    ("\t\t\"prefix\": \"" + r.resourceName + "\",\n") +
    "\t\t\"body\": [\n" +
    ("\t\t\t\"# " + Snippets.DocumentRoot + "/" + r.resourceName + "\",\n") +
    ("\t\t\t" + Join(r.body, ",\n\t\t\t") + "\n") +
    "\t\t]\n" +
    "\t}"
  }

  function RenderAll(rs: seq<ExtractResult>): seq<string>
  {
    seq(|rs|, i requires 0 <= i < |rs| => Render(rs[i]))
  }

  /** The text written to the snippet file. */
  function Document(rs: seq<ExtractResult>): string
  {
    "{\n" + Join(RenderAll(rs), ",\n") + "\n}"
  }

  function Generate(dir: seq<CachedDocument>): string
  {
    Document(Results(dir))
  }

  /** The base the current generator builds from the same result. */
  function AsBase(r: ExtractResult): Snippets.SnippetBase
  {
    Snippets.SnippetBase(r.resourceName, r.body, false)
  }

  /** A legacy entry renders exactly as a current entry without `noURL`, so it
      always has the URL line at index 3. */
  lemma RenderAsCurrent(r: ExtractResult)
    ensures Render(r) == Snippets.Render(AsBase(r))
    ensures '\n' !in r.resourceName && (forall j :: 0 <= j < |r.body| ==> '\n' !in r.body[j]) ==>
      |Lines(Render(r))| > 3 && Lines(Render(r))[3] == "\t\t\t\"# " + Snippets.DocumentRoot + "/" + r.resourceName + "\","
  {
    assert Render(r) == Snippets.Render(AsBase(r)) by {
      assert "\t\t\t\"# " + Snippets.DocumentRoot + "/" + r.resourceName + "\",\n" == Snippets.UrlLine(r.resourceName);
    }
    if '\n' !in r.resourceName && (forall j :: 0 <= j < |r.body| ==> '\n' !in r.body[j]) {
      Snippets.RenderLines(AsBase(r));
    }
  }

  /** The two versions agree on every page: the older result is present exactly
      when the current one is, with the same name and body. */
  lemma SameExtraction(doc: CachedDocument)
    ensures Extracted(doc).None? <==> Snippets.Extracted(doc).None?
    ensures Extracted(doc).Some? ==> Snippets.Extracted(doc) == Some(AsBase(Extracted(doc).value))
  {
  }

  /** The older file is the current one without the four hand-written entries. */
  lemma CurrentMinusDefaults(dir: seq<CachedDocument>)
    ensures |Snippets.Entries(dir)| >= 4
    ensures Generate(dir) == Snippets.Document(Snippets.Entries(dir)[4..])
  {
    var docs := Select(dir);
    var olds := seq(|docs|, i requires 0 <= i < |docs| => Extracted(docs[i]));
    var news := Snippets.ExtractAll(docs);
    var rs := Results(dir);
    Snippets.EntriesSplit(dir);
    Snippets.DefaultsShape();
    var tailEntries := Snippets.Entries(dir)[4..];
    assert tailEntries == Somes(news);
    forall i | 0 <= i < |docs|
      ensures news[i] == (if olds[i].Some? then Some(AsBase(olds[i].value)) else None)
    {
      SameExtraction(docs[i]);
    }
    SomesMap(olds, news);
    assert RenderAll(rs) == Snippets.RenderAll(tailEntries) by {
      forall i | 0 <= i < |rs| ensures RenderAll(rs)[i] == Snippets.RenderAll(tailEntries)[i] {
        RenderAsCurrent(rs[i]);
      }
    }
  }

  /** Dropping nulls before or after turning results into bases gives the same list. */
  lemma {:induction false} SomesMap(olds: seq<Option<ExtractResult>>, news: seq<Option<Snippets.SnippetBase>>)
    requires |olds| == |news|
    requires forall i :: 0 <= i < |olds| ==>
      news[i] == (if olds[i].Some? then Some(AsBase(olds[i].value)) else None)
    ensures |Somes(news)| == |Somes(olds)|
    ensures forall i :: 0 <= i < |Somes(olds)| ==> Somes(news)[i] == AsBase(Somes(olds)[i])
  {
    if olds != [] {
      SomesMap(olds[1..], news[1..]);
    }
  }

  /** With no result the older file is an empty pair of braces. */
  lemma NoResultsEmptyObject(dir: seq<CachedDocument>)
    requires forall d :: d in Select(dir) ==> Extracted(d).None?
    ensures Generate(dir) == "{\n\n}"
  {
    var docs := Select(dir);
    SomesAllAbsent(seq(|docs|, i requires 0 <= i < |docs| => Extracted(docs[i])));
  }
}
