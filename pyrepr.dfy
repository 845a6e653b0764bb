/**
  Python's `repr` of a string. The quote is `'` unless the string holds a
  single quote and no double quote. Backslashes and the chosen quote are
  escaped with a backslash; tab, newline and carriage return become `\t`,
  `\n`, `\r`; other ASCII control characters become `\xhh`; printable ASCII
  is kept. A character beyond ASCII is kept when Unicode calls it printable
  and otherwise becomes `\xhh`, `\uhhhh` or `\Uhhhhhhhh`. Unicode's
  printability table is not modelled: it is the parameter `printable`.
 */
module PyRepr {

  const Backslash: char := '\\'
  const SingleQuote: char := '\''
  const DoubleQuote: char := '"'

  const HexDigits: string := "0123456789abcdef"

  /** The lowest `width` hexadecimal digits of n, most significant first, lower case. */
  function Hex(n: nat, width: nat): (r: string)
    ensures |r| == width
    ensures forall c :: c in r ==> c in HexDigits
  {
    if width == 0 then [] else Hex(n / 16, width - 1) + [HexDigits[n % 16]]
  }

  /** The quote `repr` puts around s. */
  function QuoteFor(s: string): (q: char)
    ensures q == SingleQuote || q == DoubleQuote
    ensures DoubleQuote in s ==> q == SingleQuote
    ensures q == DoubleQuote ==> SingleQuote in s
  {
    if SingleQuote in s && DoubleQuote !in s then DoubleQuote else SingleQuote
  }

  /** A character that `repr` copies unchanged between quotes q. */
  predicate Verbatim(c: char, q: char, printable: char -> bool)
  {
    && c != q
    && c != Backslash
    && (if c as int < 0x7F then c as int >= 0x20 else c as int > 0x7F && printable(c))
  }

  /** How `repr` writes one character between quotes q. */
  function EscapeChar(c: char, q: char, printable: char -> bool): (r: string)
    ensures r == [c] <==> Verbatim(c, q, printable)
    ensures r != [c] ==> |r| >= 2 && r[0] == Backslash
  {
    if c == q || c == Backslash then [Backslash, c]
    else if c == '\t' then "\\t"
    else if c == '\n' then "\\n"
    else if c == '\r' then "\\r"
    else if c as int < 0x20 || c as int == 0x7F then "\\x" + Hex(c as int, 2)
    else if c as int < 0x7F then [c]
    else if printable(c) then [c]
    else if c as int <= 0xFF then "\\x" + Hex(c as int, 2)
    else if c as int <= 0xFFFF then "\\u" + Hex(c as int, 4)
    else "\\U" + Hex(c as int, 8)
  }

  function EscapeAll(s: string, q: char, printable: char -> bool): (r: string)
    ensures |r| >= |s|
    ensures r == [] <==> s == []
  {
    if s == [] then [] else EscapeChar(s[0], q, printable) + EscapeAll(s[1..], q, printable)
  }

  /** `repr(s)` */
  function Repr(s: string, printable: char -> bool): (r: string)
    ensures |r| >= |s| + 2
    ensures r[0] == QuoteFor(s) && r[|r| - 1] == QuoteFor(s)
    ensures r[1..|r| - 1] == EscapeAll(s, QuoteFor(s), printable)
  {
    [QuoteFor(s)] + EscapeAll(s, QuoteFor(s), printable) + [QuoteFor(s)]
  }

  /** Escaping works character by character. */
  lemma {:induction false} EscapeAppend(a: string, b: string, q: char, printable: char -> bool)
    ensures EscapeAll(a + b, q, printable) == EscapeAll(a, q, printable) + EscapeAll(b, q, printable)
  {
    if a == [] {
      assert a + b == b;
    } else {
      assert (a + b)[0] == a[0] && (a + b)[1..] == a[1..] + b;
      EscapeAppend(a[1..], b, q, printable);
    }
  }

  /** A string of verbatim characters is its own escape. */
  lemma {:induction false} EscapeVerbatim(s: string, q: char, printable: char -> bool)
    requires forall i :: 0 <= i < |s| ==> Verbatim(s[i], q, printable)
    ensures EscapeAll(s, q, printable) == s
  {
    if s != [] {
      EscapeVerbatim(s[1..], q, printable);
    }
  }

  /**
    `repr` never introduces a closing brace and never loses one: a `}` in the
    escaped text stands for a `}` of the original.
   */
  lemma {:induction false} EscapeKeepsCloseBrace(s: string, q: char, printable: char -> bool)
    requires q != '}'
    ensures '}' in EscapeAll(s, q, printable) <==> '}' in s
  {
    if s != [] {
      EscapeKeepsCloseBrace(s[1..], q, printable);
      assert s == [s[0]] + s[1..];
      assert '}' !in HexDigits;
      var e := EscapeChar(s[0], q, printable);
      assert '}' in e <==> s[0] == '}';
    }
  }
}
