/** The file filter of main.ts:18-53 (identical in src/main.ts:18-53): keep the
    directory entries whose name contains, ignoring case, one of a fixed list of
    service fragments. The directory is an input; reading it is not modelled. */
module Selector {

  /** A cached documentation page: its file name and the values of its code
      blocks in document order (what the markdown parser would visit). */
  datatype CachedDocument = CachedDocument(name: string, codeNodes: seq<string>)

  /** `pickedServices`, in the source's order. */
  const PickedServices: seq<string> := [
    "api_gateway", "apigateway", "batch", "cloudfront", "cloudwatch", "code",
    "cognito", "db", "default", "ebs", "dynamo", "ec2", "ecs", "ecr", "efs",
    "eip", "eks", "elastic", "iam", "kms", "lambda", "lb", "load_balancer",
    "memorydb", "network", "rds", "route53", "s3", "ses", "sqs", "vpc", "waf"
  ]

  /** ASCII lower-casing, the folding the `i` flag applies to these fragments. */
  function LowerAscii(c: char): char
  {
    if 'A' <= c <= 'Z' then (c as int + 32) as char else c
  }

  predicate SameIgnoringCase(a: string, b: string)
  {
    |a| == |b| && forall i :: 0 <= i < |a| ==> LowerAscii(a[i]) == LowerAscii(b[i])
  }

  /** The regex engine's search for one alternative: try each start position in turn. */
  predicate OccursIgnoringCase(frag: string, s: string)
    decreases |s|
  {
    |frag| <= |s| &&
    (SameIgnoringCase(s[..|frag|], frag) || (|s| > 0 && OccursIgnoringCase(frag, s[1..])))
  }

  /** `regex.test(file)` for the alternation of all fragments with the `i` flag. */
  predicate IsPicked(name: string)
  {
    exists k :: 0 <= k < |PickedServices| && OccursIgnoringCase(PickedServices[k], name)
  }

  /** `readdirSync(TMP_DIR).filter(file => regex.test(file))`. */
  function Select(dir: seq<CachedDocument>): seq<CachedDocument>
  {
    if dir == [] then []
    else (if IsPicked(dir[0].name) then [dir[0]] else []) + Select(dir[1..])
  }

  /** The fragment equals, ignoring case, the slice of `s` starting at `i`. */
  predicate MatchesAt(frag: string, s: string, i: int)
  {
    0 <= i && i + |frag| <= |s| && SameIgnoringCase(s[i..i + |frag|], frag)
  }

  /** The search succeeds iff the fragment matches at some index of `s`. */
  lemma {:induction false} OccursAt(frag: string, s: string)
    ensures OccursIgnoringCase(frag, s) <==> exists i :: MatchesAt(frag, s, i)
  {
    if |frag| <= |s| {
      assert s[..|frag|] == s[0..0 + |frag|];
      if SameIgnoringCase(s[..|frag|], frag) {
        assert MatchesAt(frag, s, 0);
      }
      if |s| > 0 {
        OccursAt(frag, s[1..]);
        if OccursIgnoringCase(frag, s[1..]) {
          var i :| MatchesAt(frag, s[1..], i);
          assert s[1..][i..i + |frag|] == s[i + 1..i + 1 + |frag|];
          assert MatchesAt(frag, s, i + 1);
        }
        if exists i :: MatchesAt(frag, s, i) {
          var i :| MatchesAt(frag, s, i);
          if i > 0 {
            assert s[1..][i - 1..i - 1 + |frag|] == s[i..i + |frag|];
            assert MatchesAt(frag, s[1..], i - 1);
          }
        }
      }
    }
  }

  /** Case does not matter: an upper-case service name is still picked. */
  lemma UpperCaseNamePicked()
    ensures IsPicked("EC2_Instance.html.markdown")
  {
    var name := "EC2_Instance.html.markdown";
    assert PickedServices[11] == "ec2";
    assert SameIgnoringCase(name[..3], "ec2");
    assert OccursIgnoringCase(PickedServices[11], name);
  }

  /** A document is selected iff it is in the directory and its name is picked. */
  lemma {:induction false} SelectMembers(dir: seq<CachedDocument>, d: CachedDocument)
    ensures d in Select(dir) <==> d in dir && IsPicked(d.name)
  {
    if dir != [] {
      SelectMembers(dir[1..], d);
      assert dir == [dir[0]] + dir[1..];
    }
  }

  /** Selection keeps directory order: it distributes over concatenation. */
  lemma {:induction false} SelectConcat(a: seq<CachedDocument>, b: seq<CachedDocument>)
    ensures Select(a + b) == Select(a) + Select(b)
  {
    if a == [] {
      assert a + b == b;
    } else {
      assert (a + b)[1..] == a[1..] + b;
      SelectConcat(a[1..], b);
    }
  }

  /** Each picked entry is kept exactly as often as it occurs in the directory,
      however many fragments it matches; an entry not picked is dropped. */
  lemma {:induction false} SelectMultiplicity(dir: seq<CachedDocument>, d: CachedDocument)
    ensures multiset(Select(dir))[d] == if IsPicked(d.name) then multiset(dir)[d] else 0
  {
    if dir != [] {
      SelectMultiplicity(dir[1..], d);
      assert dir == [dir[0]] + dir[1..];
    }
  }
}
