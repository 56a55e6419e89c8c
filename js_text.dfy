/**
  The two JavaScript string built-ins the story generator relies on:
  `String.prototype.replace` with a flagless regular expression made of
  plain characters (only the leftmost match is replaced), and
  `JSON.stringify` applied to a string. A reader for JSON string literals is
  given beside the latter so that its round trip can be stated.
 */
module JsText {
  import opened Wrappers

  // ---------------------------------------------------------------------------
  // Matching and replacing a literal pattern
  // ---------------------------------------------------------------------------

  /** `pat` occurs in `s` starting at index `i`. */
  predicate OccursAt(s: string, pat: string, i: nat)
  {
    i + |pat| <= |s| && s[i..i + |pat|] == pat
  }

  /** `i` is where the leftmost occurrence of `pat` in `s` starts. */
  predicate IsFirstOccurrence(s: string, pat: string, i: nat)
  {
    OccursAt(s, pat, i) && forall j: nat :: j < i ==> !OccursAt(s, pat, j)
  }

  /** The leftmost occurrence of `pat` in `s` at or after `from`, if any. */
  function IndexOfFrom(s: string, pat: string, from: nat): (r: Option<nat>)
    requires from <= |s|
    ensures r.Some? ==> from <= r.value && OccursAt(s, pat, r.value)
    ensures r.Some? ==> forall j: nat :: from <= j < r.value ==> !OccursAt(s, pat, j)
    ensures r.None? ==> forall j: nat :: from <= j ==> !OccursAt(s, pat, j)
    decreases |s| - from
  {
    if OccursAt(s, pat, from) then Some(from)
    else if from == |s| then None
    else IndexOfFrom(s, pat, from + 1)
  }

  /**
    `s.replace(/pat/, rep)` where `pat` has no special regular-expression
    characters and `rep` no `$` patterns: the leftmost occurrence of `pat` is
    replaced by `rep`; without an occurrence, `s` is returned unchanged.
   */
  function ReplaceFirst(s: string, pat: string, rep: string): string
  {
    match IndexOfFrom(s, pat, 0)
    case None => s
    case Some(i) => s[..i] + rep + s[i + |pat|..]
  }

  /** Without an occurrence of `pat`, nothing is replaced. */
  lemma ReplaceAbsent(s: string, pat: string, rep: string)
    requires forall j: nat :: !OccursAt(s, pat, j)
    ensures ReplaceFirst(s, pat, rep) == s
  {
  }

  /** The leftmost occurrence of `pat`, and only it, is replaced by `rep`. */
  lemma ReplaceLeftmost(s: string, pat: string, rep: string, i: nat)
    requires IsFirstOccurrence(s, pat, i)
    ensures ReplaceFirst(s, pat, rep) == s[..i] + rep + s[i + |pat|..]
  {
    assert IndexOfFrom(s, pat, 0) == Some(i);
  }

  /**
    Only the leftmost occurrence is rewritten: every later occurrence that
    does not overlap it is still there, shifted by the change in length.
   */
  lemma ReplaceKeepsLaterOccurrences(s: string, pat: string, rep: string, i: nat, j: nat)
    requires IsFirstOccurrence(s, pat, i)
    requires OccursAt(s, pat, j) && i + |pat| <= j
    ensures OccursAt(ReplaceFirst(s, pat, rep), pat, j - |pat| + |rep|)
  {
    var head, after := s[..i] + rep, s[i + |pat|..];
    assert after[j - i - |pat|..j - i] == s[j..j + |pat|];
    SpliceKeepsLaterOccurrence(head, after, pat, j - i - |pat|);
    ReplaceLeftmost(s, pat, rep, i);
  }

  /** An occurrence in the tail of a spliced string is still there, after the new head. */
  lemma SpliceKeepsLaterOccurrence(head: string, after: string, pat: string, d: nat)
    requires OccursAt(after, pat, d)
    ensures OccursAt(head + after, pat, |head| + d)
  {
    assert (head + after)[|head| + d..|head| + d + |pat|] == after[d..d + |pat|];
  }

  // ---------------------------------------------------------------------------
  // JSON.stringify on strings
  // ---------------------------------------------------------------------------

  /** A lower-case hexadecimal digit. */
  function HexDigit(n: nat): (c: char)
    requires n < 16
    ensures HexValue(c) == Some(n)
  {
    if n < 10 then ('0' as int + n) as char else ('a' as int + n - 10) as char
  }

  /** The value of a hexadecimal digit of either case. */
  function HexValue(c: char): (r: Option<nat>)
    ensures r.Some? ==> r.value < 16
  {
    if '0' <= c <= '9' then Some(c as int - '0' as int)
    else if 'a' <= c <= 'f' then Some(c as int - 'a' as int + 10)
    else if 'A' <= c <= 'F' then Some(c as int - 'A' as int + 10)
    else None
  }

  /**
    How `JSON.stringify` writes one character inside a string literal: the
    quote and the backslash are escaped, so are control characters
    (with the short forms for backspace, form feed, line feed, carriage
    return and tab, `\u00xx` otherwise); every other character is itself.
   */
  function EscapeChar(c: char): (e: string)
    ensures 1 <= |e| && (|e| == 1 <==> e == [c])
  {
    if c == '"' then "\\\""
    else if c == '\\' then "\\\\"
    else if c == '\n' then "\\n"
    else if c == '\r' then "\\r"
    else if c == '\t' then "\\t"
    else if c as int == 8 then "\\b"
    else if c as int == 12 then "\\f"
    else if c < ' ' then "\\u00" + [HexDigit(c as int / 16), HexDigit(c as int % 16)]
    else [c]
  }

  function EscapeBody(s: string): string
  {
    if s == [] then [] else EscapeChar(s[0]) + EscapeBody(s[1..])
  }

  /** `JSON.stringify(s)` for a string `s`. */
  function JsonStringify(s: string): (q: string)
    ensures |q| >= 2 && q[0] == '"' && q[|q| - 1] == '"'
  {
    "\"" + EscapeBody(s) + "\""
  }

  /** A character `JSON.stringify` writes as itself. */
  predicate IsPlainChar(c: char)
  {
    c >= ' ' && c != '"' && c != '\\'
  }

  /** Identifiers, such as the names of component props, are made of plain characters. */
  lemma {:induction false} PlainStringQuoted(s: string)
    requires forall k :: 0 <= k < |s| ==> IsPlainChar(s[k])
    ensures JsonStringify(s) == "\"" + s + "\""
  {
    PlainBodyUnchanged(s);
  }

  lemma {:induction false} PlainBodyUnchanged(s: string)
    requires forall k :: 0 <= k < |s| ==> IsPlainChar(s[k])
    ensures EscapeBody(s) == s
  {
    if s != [] {
      PlainBodyUnchanged(s[1..]);
      assert s == [s[0]] + s[1..];
    }
  }

  // ---------------------------------------------------------------------------
  // Reading a JSON string literal back
  // ---------------------------------------------------------------------------

  /**
    The character denoted by the escape sequence that follows a backslash,
    and how many characters the sequence takes. A `\u` escape that names a
    surrogate is refused.
   */
  function DecodeEscape(t: string): (r: Option<(char, nat)>)
    ensures r.Some? ==> 1 <= r.value.1 <= |t|
  {
    if t == [] then None
    else if t[0] == '"' then Some(('"', 1))
    else if t[0] == '\\' then Some(('\\', 1))
    else if t[0] == '/' then Some(('/', 1))
    else if t[0] == 'b' then Some((8 as char, 1))
    else if t[0] == 'f' then Some((12 as char, 1))
    else if t[0] == 'n' then Some(('\n', 1))
    else if t[0] == 'r' then Some(('\r', 1))
    else if t[0] == 't' then Some(('\t', 1))
    else if t[0] == 'u' && |t| >= 5 then
      var h1, h2, h3, h4 := HexValue(t[1]), HexValue(t[2]), HexValue(t[3]), HexValue(t[4]);
      if h1.Some? && h2.Some? && h3.Some? && h4.Some? then
        var v := ((h1.value * 16 + h2.value) * 16 + h3.value) * 16 + h4.value;
        if v < 0xD800 || 0xE000 <= v then Some((v as char, 5)) else None
      else None
    else None
  }

  /**
    Reads the characters of a JSON string literal up to its closing quote:
    the decoded text and what follows the quote.
   */
  function ReadStringBody(t: string): (r: Option<(string, string)>)
    ensures r.Some? ==> |r.value.1| < |t|
    decreases |t|
  {
    if t == [] then None
    else if t[0] == '"' then Some(([], t[1..]))
    else if t[0] == '\\' then
      match DecodeEscape(t[1..])
      case None => None
      case Some((c, n)) =>
        match ReadStringBody(t[1 + n..])
        case None => None
        case Some((text, rest)) => Some(([c] + text, rest))
    else if t[0] < ' ' then None
    else
      match ReadStringBody(t[1..])
      case None => None
      case Some((text, rest)) => Some(([t[0]] + text, rest))
  }

  /** Reads a JSON string literal at the start of `t`. */
  function ReadString(t: string): (r: Option<(string, string)>)
    ensures r.Some? ==> |r.value.1| < |t|
  {
    if t != [] && t[0] == '"' then ReadStringBody(t[1..]) else None
  }

  /** Prepends `c` to the text of a successful read. */
  function Prepend(c: char, r: Option<(string, string)>): Option<(string, string)>
  {
    match r
    case None => None
    case Some((text, rest)) => Some(([c] + text, rest))
  }

  lemma EscapeCharRead(c: char, tail: string)
    ensures ReadStringBody(EscapeChar(c) + tail) == Prepend(c, ReadStringBody(tail))
  {
    var t := EscapeChar(c) + tail;
    if c < ' ' && c != '\n' && c != '\r' && c != '\t' && c as int != 8 && c as int != 12 {
      ControlCharRead(c, tail);
    } else if EscapeChar(c) == [c] {
      assert t[1..] == tail;
    } else {
      assert |EscapeChar(c)| == 2;
      assert t[2..] == tail;
    }
  }

  /** A control character without a short escape is written `\u00xx` and read back. */
  lemma ControlCharRead(c: char, tail: string)
    requires c < ' ' && c != '\n' && c != '\r' && c != '\t' && c as int != 8 && c as int != 12
    ensures ReadStringBody(EscapeChar(c) + tail) == Prepend(c, ReadStringBody(tail))
  {
    var t := EscapeChar(c) + tail;
    var hi, lo := c as int / 16, c as int % 16;
    var u := ['u', '0', '0', HexDigit(hi), HexDigit(lo)];
    assert t == ['\\'] + u + tail;
    assert t[1..] == u + tail;
    assert ((0 * 16 + 0) * 16 + hi) * 16 + lo == c as int;
    assert DecodeEscape(u + tail) == Some((c, 5));
    assert t[6..] == tail;
  }

  lemma {:induction false} EscapeBodyRead(s: string, rest: string)
    ensures ReadStringBody(EscapeBody(s) + "\"" + rest) == Some((s, rest))
  {
    if s == [] {
      assert EscapeBody(s) + "\"" + rest == "\"" + rest;
    } else {
      var tail := EscapeBody(s[1..]) + "\"" + rest;
      assert EscapeBody(s) + "\"" + rest == EscapeChar(s[0]) + tail;
      EscapeBodyRead(s[1..], rest);
      EscapeCharRead(s[0], tail);
      assert [s[0]] + s[1..] == s;
    }
  }

  /** Reading back what `JSON.stringify` wrote gives the original string and the text after it. */
  lemma JsonStringRoundTrip(s: string, rest: string)
    ensures ReadString(JsonStringify(s) + rest) == Some((s, rest))
  {
    var t := JsonStringify(s) + rest;
    assert t[1..] == EscapeBody(s) + "\"" + rest;
    EscapeBodyRead(s, rest);
  }

  /** Different strings are written differently. */
  lemma JsonStringifyInjective(s: string, u: string)
    requires JsonStringify(s) == JsonStringify(u)
    ensures s == u
  {
    JsonStringRoundTrip(s, []);
    JsonStringRoundTrip(u, []);
    assert JsonStringify(s) + [] == JsonStringify(u) + [];
  }
}
