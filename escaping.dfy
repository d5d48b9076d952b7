/** The per-line escape of main.ts:71 (and src/main.ts:71):
    `line.replace(/(?<=[^\\])"/g, '\\"')`, then wrapping the line in quotes.
    The lookbehind `(?<=[^\\])` needs a preceding character that is not a
    backslash, and it inspects the ORIGINAL line, not the partly rewritten one. */
module Escaping {

  import opened Text

  /** The rewrite of `s`, where `afterOther` tells whether the original line has a
      character just before `s` and that character is not a backslash. */
  function Esc(s: string, afterOther: bool): string
  {
    if s == [] then ""
    else
      (if s[0] == '"' && afterOther then "\\\"" else [s[0]]) + Esc(s[1..], s[0] != '\\')
  }

  /** The replace call applied to a whole line: nothing precedes index 0. */
  function Escaped(line: string): string
  {
    Esc(line, false)
  }

  /** The body entry made from one line: the escaped line between one pair of quotes. */
  function Quote(line: string): (q: string)
    ensures |q| >= 2 && q[0] == '"' && q[|q| - 1] == '"'
  {
    "\"" + Escaped(line) + "\""
  }

  /** Is the quote at index `i` one the regex rewrites? */
  predicate EscapableAt(s: string, i: int)
  {
    0 < i < |s| && s[i] == '"' && s[i - 1] != '\\'
  }

  /** Number of indices the regex rewrites. */
  function EscapableCount(s: string): nat
  {
    if |s| < 2 then 0
    else (if s[1] == '"' && s[0] != '\\' then 1 else 0) + EscapableCount(s[1..])
  }

  /** Reads every `\"` as `"`, left to right; every other character stays. */
  function Unescape(t: string): string
  {
    if t == [] then ""
    else if |t| >= 2 && t[0] == '\\' && t[1] == '"' then "\"" + Unescape(t[2..])
    else [t[0]] + Unescape(t[1..])
  }

  /** No quote after index 0 stands without a backslash right before it. */
  predicate NoBareQuoteAfterStart(t: string)
  {
    forall j :: 0 < j < |t| && t[j] == '"' ==> t[j - 1] == '\\'
  }

  /** Rewriting a concatenation: the second part sees the last original character of the first. */
  lemma {:induction false} EscAppend(a: string, b: string, afterOther: bool)
    ensures Esc(a + b, afterOther)
         == Esc(a, afterOther) + Esc(b, if a == [] then afterOther else a[|a| - 1] != '\\')
  {
    if a == [] {
      assert a + b == b;
    } else {
      var h := if a[0] == '"' && afterOther then "\\\"" else [a[0]];
      var x, y := Esc(a[1..], a[0] != '\\'), Esc(b, a[|a| - 1] != '\\');
      assert (a + b)[0] == a[0] && (a + b)[1..] == a[1..] + b;
      EscAppend(a[1..], b, a[0] != '\\');
      assert Esc(a[1..] + b, a[0] != '\\') == x + y by {
        if |a| > 1 {
          assert a[1..][|a[1..]| - 1] == a[|a| - 1];
        }
      }
      Associate(h, x, y);
    }
  }

  /** The rewrite character by character, in the regex engine's left-to-right
      order: extending the line by one character extends the output by `\"`
      exactly when that character is a quote with a non-backslash character
      before it, and by the character itself otherwise. */
  lemma EscapedStep(s: string, i: nat)
    requires i < |s|
    ensures Escaped(s[..i + 1])
         == Escaped(s[..i]) + (if EscapableAt(s, i) then "\\\"" else [s[i]])
  {
    assert s[..i + 1] == s[..i] + [s[i]];
    EscAppend(s[..i], [s[i]], false);
  }

  /** The output is longer by exactly the number of rewritten quotes. */
  lemma {:induction false} EscLength(s: string, afterOther: bool)
    ensures |Esc(s, afterOther)|
         == |s| + EscapableCount(s) + (if afterOther && s != [] && s[0] == '"' then 1 else 0)
  {
    if s != [] {
      EscLength(s[1..], s[0] != '\\');
    }
  }

  /** `|Escaped(s)|` is `|s|` plus one per escapable quote. */
  lemma EscapedLength(s: string)
    ensures |Escaped(s)| == |s| + EscapableCount(s)
  {
    EscLength(s, false);
  }

  /** A quote at index 0 is never rewritten: the lookbehind needs a character. */
  lemma LeadingQuoteKept(s: string)
    requires s != [] && s[0] == '"'
    ensures Escaped(s) != [] && Escaped(s)[0] == '"'
    ensures Quote(s)[..2] == "\"\""
  {
  }

  /** In any rewrite, every quote past index 0 ends up preceded by a backslash,
      and a rewrite that follows a non-backslash character does not start with a quote. */
  lemma {:induction false} EscNoBareQuote(s: string, afterOther: bool)
    ensures NoBareQuoteAfterStart(Esc(s, afterOther))
    ensures afterOther && Esc(s, afterOther) != [] ==> Esc(s, afterOther)[0] != '"'
  {
    if s != [] {
      var q := s[0] != '\\';
      var piece := if s[0] == '"' && afterOther then "\\\"" else [s[0]];
      var rest := Esc(s[1..], q);
      EscNoBareQuote(s[1..], q);
      assert Esc(s, afterOther) == piece + rest;
      forall j | 0 < j < |piece + rest| && (piece + rest)[j] == '"'
        ensures (piece + rest)[j - 1] == '\\'
      {
        if j == |piece| {
          assert rest[0] == '"';
          assert !q;
        } else if j > |piece| {
          assert rest[j - |piece|] == '"';
        }
      }
    }
  }

  /** The property the escape is for: in an escaped line, every quote except
      possibly a leading one is preceded by a backslash. */
  lemma EscapedNoBareQuote(s: string)
    ensures NoBareQuoteAfterStart(Escaped(s))
    ensures Escaped(s) != [] ==> (Escaped(s)[0] == '"' <==> s[0] == '"')
  {
    EscNoBareQuote(s, false);
  }

  /** A text with no bare quote past its start is left as it is. */
  lemma {:induction false} EscFixed(t: string, afterOther: bool)
    requires NoBareQuoteAfterStart(t)
    requires afterOther && t != [] ==> t[0] != '"'
    ensures Esc(t, afterOther) == t
  {
    if t != [] {
      var rest := t[1..];
      forall j | 0 < j < |rest| && rest[j] == '"' ensures rest[j - 1] == '\\' {
        assert t[j + 1] == '"';
      }
      if t[0] != '\\' && rest != [] {
        assert t[1] != '"';
      }
      EscFixed(rest, t[0] != '\\');
      assert t == [t[0]] + rest;
    }
  }

  /** Escaping is idempotent: escaping an escaped line changes nothing. */
  lemma EscapedIdempotent(s: string)
    ensures Escaped(Escaped(s)) == Escaped(s)
  {
    EscapedNoBareQuote(s);
    EscFixed(Escaped(s), false);
  }

  /** A line without quotes is left as it is. */
  lemma QuoteFreeUnchanged(s: string)
    requires '"' !in s
    ensures Escaped(s) == s
  {
    EscFixed(s, false);
  }

  /** Escaping only inserts backslashes in front of quotes: reading every `\"`
      back as `"` gives the same text before and after escaping. */
  lemma {:induction false} UnescapeEsc(s: string, afterOther: bool)
    ensures Unescape(Esc(s, afterOther)) == Unescape(s)
  {
    if s != [] {
      var q := s[0] != '\\';
      var rest := Esc(s[1..], q);
      if s[0] == '"' && afterOther {
        UnescapeEsc(s[1..], q);
        assert Esc(s, afterOther) == "\\\"" + rest;
        assert ("\\\"" + rest)[2..] == rest;
      } else if s[0] == '\\' {
        assert Esc(s, afterOther) == "\\" + rest;
        if |s| >= 2 && s[1] == '"' {
          var rest2 := Esc(s[2..], true);
          assert rest == "\"" + rest2;
          UnescapeEsc(s[2..], true);
          assert ("\\" + ("\"" + rest2))[2..] == rest2;
        } else {
          UnescapeEsc(s[1..], q);
          assert rest == [] || rest[0] != '"';
          assert ("\\" + rest)[1..] == rest;
        }
      } else {
        UnescapeEsc(s[1..], q);
        assert Esc(s, afterOther) == [s[0]] + rest;
        assert ([s[0]] + rest)[1..] == rest;
      }
    }
  }

  /** `Unescape(Escaped(s)) == Unescape(s)`. */
  lemma UnescapeEscaped(s: string)
    ensures Unescape(Escaped(s)) == Unescape(s)
  {
    UnescapeEsc(s, false);
  }

  /** The inside of a quoted entry. */
  function Unquote(q: string): string
    requires |q| >= 2
  {
    q[1..|q| - 1]
  }

  /** Unwrapping a quoted entry gives back the escaped line, and the entry holds
      no line break the line did not have. */
  lemma QuoteUnquote(s: string)
    ensures Unquote(Quote(s)) == Escaped(s)
    ensures '\n' !in s ==> '\n' !in Quote(s)
  {
    if '\n' !in s {
      EscapedLength(s);
      EscNoNewline(s, false);
    }
  }

  /** Escaping inserts only backslashes and quotes, so it adds no line break. */
  lemma {:induction false} EscNoNewline(s: string, afterOther: bool)
    requires '\n' !in s
    ensures '\n' !in Esc(s, afterOther)
  {
    if s != [] {
      EscNoNewline(s[1..], s[0] != '\\');
    }
  }

  /** Inside a quoted entry of a non-empty line, a quote without a backslash before
      it can only sit at index 1, and it does exactly when the line starts with a quote. */
  lemma QuoteInterior(s: string)
    ensures forall j :: 1 < j < |Quote(s)| - 1 && Quote(s)[j] == '"' ==> Quote(s)[j - 1] == '\\'
    ensures s != [] ==> (Quote(s)[1] == '"' <==> s[0] == '"')
  {
    var e := Escaped(s);
    EscapedNoBareQuote(s);
    EscapedLength(s);
    assert Quote(s) == "\"" + e + "\"";
    forall j | 1 < j < |Quote(s)| - 1 && Quote(s)[j] == '"' ensures Quote(s)[j - 1] == '\\' {
      assert e[j - 1] == '"';
    }
  }

  /** A character other than a quote or a backslash splits `Unescape`. */
  lemma {:induction false} UnescapeAround(a: string, c: char, b: string)
    requires c != '"' && c != '\\'
    ensures Unescape(a + [c] + b) == Unescape(a) + [c] + Unescape(b)
  {
    if a == [] {
      assert a + [c] + b == [c] + b;
      assert ([c] + b)[1..] == b;
    } else if |a| >= 2 && a[0] == '\\' && a[1] == '"' {
      assert (a + [c] + b)[..2] == a[..2] && (a + [c] + b)[2..] == a[2..] + [c] + b;
      UnescapeAround(a[2..], c, b);
      Associate("\"", Unescape(a[2..]) + [c], Unescape(b));
      Associate("\"", Unescape(a[2..]), [c]);
    } else {
      assert (a + [c] + b)[0] == a[0] && (a + [c] + b)[1..] == a[1..] + [c] + b;
      UnescapeAround(a[1..], c, b);
      Associate([a[0]], Unescape(a[1..]) + [c], Unescape(b));
      Associate([a[0]], Unescape(a[1..]), [c]);
    }
  }
}
