/**
 Redaction of parser messages (src/config.rs). A message is the sequence of its UTF-8 bytes,
 each written as one character: both quotes and the backslash are ASCII.
 */
module Redact {
  import opened Bytes

  const REDACTED: string := "`<redacted>`"

  predicate IsQuote(c: char) { c == '`' || c == '"' }

  /** Where a quote first occurs, or the length. */
  function FirstQuote(s: string): (n: nat)
    ensures n <= |s|
  {
    if s == [] || IsQuote(s[0]) then 0 else 1 + FirstQuote(s[1..])
  }

  lemma {:induction false} FirstQuoteIsFirst(s: string)
    ensures FirstQuote(s) < |s| ==> IsQuote(s[FirstQuote(s)])
    ensures NoQuotes(s[..FirstQuote(s)])
  {
    if s != [] && !IsQuote(s[0]) {
      FirstQuoteIsFirst(s[1..]);
      var n := FirstQuote(s);
      assert s[..n] == [s[0]] + s[1..][..n - 1];
    }
  }

  /** The offset of the quote that closes a segment; only double quotes have backslash escapes. */
  function Closing(s: string, quote: char): (r: Option<nat>)
    ensures r.Some? ==> r.value < |s| && s[r.value] == quote
    decreases |s|
  {
    if s == [] then None
    else if s[0] == quote then Some(0)
    else
      var skip := if quote == '"' && s[0] == '\\' && |s| >= 2 then 2 else 1;
      match Closing(s[skip..], quote)
      case None => None
      case Some(n) => Some(n + skip)
  }

  /** Every quoted segment replaced; an unclosed one swallows the rest. */
  function Redacted(s: string): string
    decreases |s|
  {
    var open := FirstQuote(s);
    if open == |s| then s
    else
      match Closing(s[open + 1..], s[open])
      case None => s[..open] + REDACTED
      case Some(close) => s[..open] + REDACTED + Redacted(s[open + 1 + close + 1..])
  }

  lemma NoSegment(s: string)
    requires FirstQuote(s) == |s|
    ensures Redacted(s) == s
  {
  }

  lemma ClosedSegment(s: string, open: nat, close: nat)
    requires FirstQuote(s) == open < |s| && Closing(s[open + 1..], s[open]) == Some(close)
    ensures Redacted(s) == s[..open] + REDACTED + Redacted(s[open + 1 + close + 1..])
  {
    hide FirstQuote, Closing, REDACTED;
  }

  lemma OpenSegment(s: string, open: nat)
    requires FirstQuote(s) == open < |s| && Closing(s[open + 1..], s[open]) == None
    ensures Redacted(s) == s[..open] + REDACTED
  {
    hide FirstQuote, Closing;
  }

  // ---------------------------------------------------------------- the loops

  function Shifted(r: Option<nat>, d: nat): Option<nat> { match r case None => None case Some(n) => Some(n + d) }

  lemma ClosingEmpty(quote: char)
    ensures Closing("", quote) == None
  {
  }

  lemma ClosingSteps(s: string, i: nat, quote: char)
    requires i < |s|
    ensures s[i] == quote ==> Closing(s[i..], quote) == Some(0)
    ensures s[i] != quote ==>
      var skip := if quote == '"' && s[i] == '\\' && i + 1 < |s| then 2 else 1;
      Closing(s[i..], quote) == Shifted(Closing(s[i + skip..], quote), skip)
  {
    var skip := if quote == '"' && s[i] == '\\' && i + 1 < |s| then 2 else 1;
    assert s[i..][skip..] == s[i + skip..];
  }

  method ClosingQuote(rest: string, quote: char) returns (r: Option<nat>)
    ensures r == Closing(rest, quote)
  {
    hide Closing;
    var i := 0;
    assert rest[0..] == rest;
    while i < |rest|
      invariant i <= |rest|
      invariant Closing(rest, quote) == Shifted(Closing(rest[i..], quote), i)
    {
      ClosingSteps(rest, i, quote);
      if rest[i] == quote {
        return Some(i);
      }
      i := i + if quote == '"' && rest[i] == '\\' && i + 1 < |rest| then 2 else 1;
    }
    assert rest[i..] == "" && Closing("", quote) == None by { ClosingEmpty(quote); }
    r := None;
  }

  method FindQuote(rest: string) returns (n: nat)
    ensures n == FirstQuote(rest)
  {
    n := 0;
    while n < |rest| && !IsQuote(rest[n])
      invariant n <= |rest| && FirstQuote(rest) == n + FirstQuote(rest[n..])
    {
      assert rest[n..][1..] == rest[n + 1..];
      n := n + 1;
    }
  }

  method RedactQuoted(message: string) returns (redacted: string)
    ensures redacted == Redacted(message)
  {
    hide FirstQuote, Closing, Redacted;
    redacted := "";
    var rest := message;
    assert "" + Redacted(message) == Redacted(message);
    while true
      invariant Redacted(message) == redacted + Redacted(rest)
      decreases |rest|
    {
      var open := FindQuote(rest);
      if open == |rest| {
        NoSegment(rest);
        return redacted + rest;
      }
      var close := ClosingQuote(rest[open + 1..], rest[open]);
      ghost var before := redacted;
      redacted := redacted + rest[..open] + REDACTED;
      if close == None {
        OpenSegment(rest, open);
        assert before + (rest[..open] + REDACTED) == redacted;
        return;
      }
      ClosedSegment(rest, open, close.value);
      ghost var tail := Redacted(rest[open + 1 + close.value + 1..]);
      assert before + (rest[..open] + REDACTED + tail) == redacted + tail;
      rest := rest[open + 1 + close.value + 1..];
    }
  }

  // ---------------------------------------------------------------- secrets

  predicate NoQuotes(s: string) { forall i :: 0 <= i < |s| ==> s[i] != '`' && s[i] != '"' }

  /**
   The inside of a debug-rendered string: plain characters other than the double quote and the
   backslash, and backslashes each with the character after them.
   */
  predicate Rendered(t: string)
    decreases |t|
  {
    if t == [] then true
    else if t[0] == '\\' then |t| >= 2 && Rendered(t[2..])
    else t[0] != '"' && Rendered(t[1..])
  }

  /** The rendering of a value: double quotes and backslashes are escaped. */
  function Escape(secret: string): string {
    if secret == [] then []
    else (if secret[0] == '"' || secret[0] == '\\' then ['\\', secret[0]] else [secret[0]]) + Escape(secret[1..])
  }

  lemma {:induction false} EscapeIsRendered(secret: string)
    ensures Rendered(Escape(secret))
  {
    if secret != [] {
      var rest := Escape(secret[1..]);
      EscapeIsRendered(secret[1..]);
      if secret[0] == '"' || secret[0] == '\\' {
        assert (['\\', secret[0]] + rest)[2..] == rest;
      } else {
        assert ([secret[0]] + rest)[1..] == rest;
      }
    }
  }

  /** The closing quote of a rendered string is the one its renderer wrote. */
  lemma {:induction false} ClosesAfterRendering(t: string, suffix: string)
    requires Rendered(t)
    ensures Closing(t + "\"" + suffix, '"') == Some(|t|)
    decreases |t|
  {
    var s := t + "\"" + suffix;
    if t != [] {
      var skip := if t[0] == '\\' then 2 else 1;
      ClosesAfterRendering(t[skip..], suffix);
      assert s[skip..] == t[skip..] + "\"" + suffix;
    }
  }

  lemma {:induction false} FirstQuoteAfter(prefix: string, rest: string)
    requires NoQuotes(prefix) && rest != [] && IsQuote(rest[0])
    ensures FirstQuote(prefix + rest) == |prefix|
  {
    if prefix == [] {
      assert prefix + rest == rest;
    } else {
      FirstQuoteAfter(prefix[1..], rest);
      assert (prefix + rest)[1..] == prefix[1..] + rest;
    }
  }

  /** A double-quoted rendering is replaced whole, and the redaction goes on right after it. */
  lemma RenderingIsRedacted(prefix: string, t: string, suffix: string)
    requires NoQuotes(prefix) && Rendered(t)
    ensures Redacted(prefix + ("\"" + t + "\"" + suffix)) == prefix + "`<redacted>`" + Redacted(suffix)
  {
    hide FirstQuote, Closing, Redacted;
    var rest := "\"" + t + "\"" + suffix;
    var s := prefix + rest;
    FirstQuoteAfter(prefix, rest);
    ClosesAfterRendering(t, suffix);
    assert s[..|prefix|] == prefix && s[|prefix|] == rest[0];
    assert s[|prefix| + 1..] == t + "\"" + suffix;
    assert s[|prefix| + 1 + |t| + 1..] == suffix;
    ClosedSegment(s, |prefix|, |t|);
  }

  /** What is printed does not depend on the secret. */
  lemma SecretsDoNotShow(prefix: string, secret: string, other: string, suffix: string)
    requires NoQuotes(prefix)
    ensures Redacted(prefix + ("\"" + Escape(secret) + "\"" + suffix)) == prefix + "`<redacted>`" + Redacted(suffix)
    ensures Redacted(prefix + ("\"" + Escape(secret) + "\"" + suffix)) ==
            Redacted(prefix + ("\"" + Escape(other) + "\"" + suffix))
  {
    EscapeIsRendered(secret);
    EscapeIsRendered(other);
    RenderingIsRedacted(prefix, Escape(secret), suffix);
    RenderingIsRedacted(prefix, Escape(other), suffix);
  }

  /** A backtick segment has no escapes: it runs to the next backtick, whatever lies between. */
  lemma {:induction false} ClosesAtBacktick(t: string, suffix: string)
    requires '`' !in t
    ensures Closing(t + "`" + suffix, '`') == Some(|t|)
  {
    var s := t + "`" + suffix;
    if t != [] {
      ClosesAtBacktick(t[1..], suffix);
      assert s[1..] == t[1..] + "`" + suffix;
    }
  }

  lemma BacktickedIsRedacted(prefix: string, t: string, suffix: string)
    requires NoQuotes(prefix) && '`' !in t
    ensures Redacted(prefix + ("`" + t + "`" + suffix)) == prefix + "`<redacted>`" + Redacted(suffix)
  {
    hide FirstQuote, Closing, Redacted;
    var rest := "`" + t + "`" + suffix;
    var s := prefix + rest;
    FirstQuoteAfter(prefix, rest);
    ClosesAtBacktick(t, suffix);
    assert s[..|prefix|] == prefix && s[|prefix|] == rest[0];
    assert s[|prefix| + 1..] == t + "`" + suffix;
    assert s[|prefix| + 1 + |t| + 1..] == suffix;
    ClosedSegment(s, |prefix|, |t|);
  }

  lemma {:induction false} NeverCloses(t: string, quote: char)
    requires if quote == '"' then Rendered(t) || (t != [] && t[|t| - 1] == '\\' && Rendered(t[..|t| - 1])) else quote !in t
    ensures Closing(t, quote) == None
    decreases |t|
  {
    if t != [] {
      var skip := if quote == '"' && t[0] == '\\' && |t| >= 2 then 2 else 1;
      if |t| > 1 && quote == '"' && !Rendered(t) {
        var rest := t[skip..];
        assert |t| > 2 ==> t[..|t| - 1][skip..] == rest[..|rest| - 1];
        assert |t| == 2 ==> t[..1] == [t[0]];
      }
      NeverCloses(t[skip..], quote);
    }
  }

  /** A segment that is not closed swallows the rest, a last lone backslash included. */
  lemma UnclosedIsRedacted(prefix: string, quote: char, t: string)
    requires NoQuotes(prefix) && (quote == '`' || quote == '"')
    requires if quote == '"' then Rendered(t) || (t != [] && t[|t| - 1] == '\\' && Rendered(t[..|t| - 1])) else quote !in t
    ensures Redacted(prefix + ([quote] + t)) == prefix + "`<redacted>`"
  {
    var s := prefix + ([quote] + t);
    FirstQuoteAfter(prefix, [quote] + t);
    NeverCloses(t, quote);
    assert s[|prefix| + 1..] == t && s[|prefix|] == quote && s[..|prefix|] == prefix;
    OpenSegment(s, |prefix|);
  }

  /** A message with neither quote is left as it is. */
  lemma PlainIsUnchanged(s: string)
    requires NoQuotes(s)
    ensures Redacted(s) == s
  {
    FirstQuoteIsFirst(s);
    NoSegment(s);
  }

  /** Redacting twice redacts no more than once. */
  lemma {:induction false} RedactionIsIdempotent(s: string)
    ensures Redacted(Redacted(s)) == Redacted(s)
    decreases |s|
  {
    hide FirstQuote, Closing, Redacted;
    var open := FirstQuote(s);
    if open == |s| {
      NoSegment(s);
    } else {
      var inner := "<redacted>";
      assert REDACTED == "`" + inner + "`";
      FirstQuoteIsFirst(s);
      var close := Closing(s[open + 1..], s[open]);
      var tail := if close == None then "" else Redacted(s[open + 1 + close.value + 1..]);
      if close.Some? {
        ClosedSegment(s, open, close.value);
        RedactionIsIdempotent(s[open + 1 + close.value + 1..]);
      } else {
        OpenSegment(s, open);
        assert Redacted("") == "" by { NoSegment(""); }
      }
      BacktickedIsRedacted(s[..open], inner, tail);
      assert s[..open] + ("`" + inner + "`" + tail) == s[..open] + REDACTED + tail;
      assert s[..open] + REDACTED + "" == s[..open] + REDACTED;
    }
  }
}
