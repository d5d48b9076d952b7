/** What main.ts:60-91 and src/main.ts:60-91 do with one cached page: derive the
    resource name from the file name, walk the page's code blocks in document
    order, and turn every block that declares that resource into quoted lines.
    The markdown parser is not modelled: its output is the sequence of code-node
    values in document order. */
module Extraction {
  import opened Text
  import opened Escaping

  /** `fileName.split('.')[0]`. */
  function ResourceName(fileName: string): (name: string)
    ensures name <= fileName && '.' !in name
    ensures |name| < |fileName| ==> fileName[|name|] == '.'
  {
    SplitHead(fileName, '.');
    Split(fileName, '.')[0]
  }

  /** The three facts above single out the resource name: it is the part of the
      file name before the first `.`, or all of it when there is no `.`. */
  lemma ResourceNameUnique(fileName: string, name: string)
    requires name <= fileName && '.' !in name
    requires |name| < |fileName| ==> fileName[|name|] == '.'
    ensures name == ResourceName(fileName)
  {
  }

  /** The text the pattern `^resource "aws_${resourceName}"` asks a block to start with. */
  function Header(name: string): string
  {
    "resource \"aws_" + name + "\""
  }

  /** `code.match(...)` read as a literal prefix test. */
  predicate Accepts(name: string, code: string)
  {
    Header(name) <= code
  }

  /** The closing quote of the header matters: a block declaring a longer resource
      type (`aws_ec2_instance` for the name `ec2`) is not accepted. */
  lemma LongerTypeRejected(name: string, more: string, rest: string)
    requires more != [] && more[0] != '"'
    ensures !Accepts(name, Header(name + more) + rest)
  {
    var k := |"resource \"aws_"| + |name|;
    assert Header(name)[k] == '"';
    assert (Header(name + more) + rest)[k] == more[0];
  }

  /** The example the closing quote is there for. */
  lemma Ec2InstanceNotEc2()
    ensures !Accepts("ec2", "resource \"aws_ec2_instance\" \"web\" {")
  {
    LongerTypeRejected("ec2", "_instance", " \"web\" {");
    assert Header("ec2" + "_instance") + " \"web\" {" == "resource \"aws_ec2_instance\" \"web\" {";
  }

  /** For quote-free names, at most one resource name accepts a given block. */
  lemma AcceptedNameUnique(n: string, m: string, code: string)
    requires '"' !in n && '"' !in m
    requires Accepts(n, code) && Accepts(m, code)
    ensures n == m
  {
    var k := |"resource \"aws_"|;
    assert code[k + |n|] == Header(n)[k + |n|] == '"';
    assert code[k + |m|] == Header(m)[k + |m|] == '"';
    assert forall i :: 0 <= i < |n| ==> code[k + i] == Header(n)[k + i] == n[i];
    assert forall i :: 0 <= i < |m| ==> code[k + i] == Header(m)[k + i] == m[i];
  }

  /** `code.split('\n')`. */
  function Lines(code: string): seq<string>
  {
    Split(code, '\n')
  }

  /** `code.split('\n').map(line => "\"" + escape(line) + "\"")`. */
  function BodyLines(code: string): seq<string>
  {
    var pieces := Lines(code);
    seq(|pieces|, i requires 0 <= i < |pieces| => Quote(pieces[i]))
  }

  /** One entry per line of the block, in order: entry i is line i escaped and
      wrapped in quotes, and no entry holds a line break. */
  lemma BodyLinesShape(code: string)
    ensures |BodyLines(code)| == Count(code, '\n') + 1
    ensures forall i :: 0 <= i < |BodyLines(code)| ==>
      '\n' !in BodyLines(code)[i] && Unquote(BodyLines(code)[i]) == Escaped(Lines(code)[i])
  {
    SplitCount(code, '\n');
    SplitPiecesFree(code, '\n');
    forall i | 0 <= i < |BodyLines(code)|
      ensures '\n' !in BodyLines(code)[i] && Unquote(BodyLines(code)[i]) == Escaped(Lines(code)[i])
    {
      QuoteUnquote(Lines(code)[i]);
    }
  }

  /** Reading entries back: unwrap each and read every `\"` as `"`. */
  function UnescapeEach(entries: seq<string>): seq<string>
    requires forall i :: 0 <= i < |entries| ==> |entries[i]| >= 2
  {
    seq(|entries|, i requires 0 <= i < |entries| => Unescape(Unquote(entries[i])))
  }

  /** Reading every `\"` as `"` commutes with joining lines. */
  lemma {:induction false} UnescapeJoin(parts: seq<string>)
    ensures Unescape(Join(parts, "\n"))
         == Join(seq(|parts|, i requires 0 <= i < |parts| => Unescape(parts[i])), "\n")
  {
    var u := seq(|parts|, i requires 0 <= i < |parts| => Unescape(parts[i]));
    if |parts| > 1 {
      UnescapeJoin(parts[1..]);
      assert u[1..] == seq(|parts[1..]|, i requires 0 <= i < |parts[1..]| => Unescape(parts[1..][i]));
      UnescapeAround(parts[0], '\n', Join(parts[1..], "\n"));
      assert parts[0] + "\n" + Join(parts[1..], "\n") == parts[0] + ['\n'] + Join(parts[1..], "\n");
    }
  }

  /** The body loses nothing but the escapes it adds: joined back with line
      breaks after reading each entry back, it is the block itself, up to
      reading every `\"` as `"`. */
  lemma BodyLinesRoundTrip(code: string)
    ensures forall i :: 0 <= i < |BodyLines(code)| ==> |BodyLines(code)[i]| >= 2
    ensures Join(UnescapeEach(BodyLines(code)), "\n") == Unescape(code)
  {
    var pieces := Lines(code);
    var body := BodyLines(code);
    BodyLinesShape(code);
    forall i | 0 <= i < |body| ensures UnescapeEach(body)[i] == Unescape(pieces[i]) {
      UnescapeEscaped(pieces[i]);
    }
    assert UnescapeEach(body) == seq(|pieces|, i requires 0 <= i < |pieces| => Unescape(pieces[i]));
    UnescapeJoin(pieces);
    JoinSplit(code, '\n');
  }

  /** The contents of the `codeBlocks` array after the visitor has seen `nodes`:
      the transformed accepted blocks, in document order. */
  function MatchedBodies(name: string, nodes: seq<string>): seq<seq<string>>
  {
    if nodes == [] then []
    else
      var last := nodes[|nodes| - 1];
      MatchedBodies(name, nodes[..|nodes| - 1]) + (if Accepts(name, last) then [BodyLines(last)] else [])
  }

  /** The visitor callback run over the code nodes in document order, pushing the
      lines of every accepted block. */
  method CollectBlocks(name: string, nodes: seq<string>) returns (codeBlocks: seq<seq<string>>)
    ensures codeBlocks == MatchedBodies(name, nodes)
  {
    codeBlocks := [];
    for i := 0 to |nodes|
      invariant codeBlocks == MatchedBodies(name, nodes[..i])
    {
      var code := nodes[i];
      if Accepts(name, code) {
        var lines := BodyLines(code);
        codeBlocks := codeBlocks + [lines];
      }
      assert nodes[..i + 1][..i] == nodes[..i];
    }
    assert nodes[..|nodes|] == nodes;
  }

  /** Nothing is collected iff no block is accepted; otherwise the first collected
      body is that of the first accepted block in document order. */
  lemma {:induction false} FirstMatch(name: string, nodes: seq<string>)
    ensures MatchedBodies(name, nodes) == [] <==> forall i :: 0 <= i < |nodes| ==> !Accepts(name, nodes[i])
    ensures MatchedBodies(name, nodes) != [] ==>
      exists k :: 0 <= k < |nodes| && Accepts(name, nodes[k]) &&
        (forall j :: 0 <= j < k ==> !Accepts(name, nodes[j])) &&
        MatchedBodies(name, nodes)[0] == BodyLines(nodes[k])
  {
    if nodes != [] {
      var init := nodes[..|nodes| - 1];
      FirstMatch(name, init);
      if MatchedBodies(name, init) != [] {
        var k :| 0 <= k < |init| && Accepts(name, init[k]) &&
          (forall j :: 0 <= j < k ==> !Accepts(name, init[j])) &&
          MatchedBodies(name, init)[0] == BodyLines(init[k]);
        assert nodes[k] == init[k];
        assert forall j :: 0 <= j < k ==> nodes[j] == init[j];
      } else if Accepts(name, nodes[|nodes| - 1]) {
        assert forall j :: 0 <= j < |nodes| - 1 ==> nodes[j] == init[j];
      } else {
        assert forall j :: 0 <= j < |nodes| - 1 ==> nodes[j] == init[j];
      }
    }
  }

  /** Blocks after the visited ones only add to the end of what is collected. */
  lemma {:induction false} MatchedPrefix(name: string, a: seq<string>, b: seq<string>)
    ensures MatchedBodies(name, a) <= MatchedBodies(name, a + b)
  {
    if b == [] {
      assert a + b == a;
    } else {
      assert (a + b)[..|a + b| - 1] == a + b[..|b| - 1];
      MatchedPrefix(name, a, b[..|b| - 1]);
    }
  }

  /** Once a block is accepted, later blocks, accepted or not, do not change the first body. */
  lemma LaterBlocksIgnored(name: string, a: seq<string>, b: seq<string>)
    requires exists i :: 0 <= i < |a| && Accepts(name, a[i])
    ensures MatchedBodies(name, a) != [] && MatchedBodies(name, a + b) != []
    ensures MatchedBodies(name, a + b)[0] == MatchedBodies(name, a)[0]
  {
    FirstMatch(name, a);
    MatchedPrefix(name, a, b);
  }
}
