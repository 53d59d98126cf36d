/** SQL quoting helpers: `quote_ident` and `quote_literal` wrap a string in a quote
    character after doubling every occurrence of that character inside it. */
module SqlUtils {
  import opened Common

  /** The number of occurrences of `q` in `s`. */
  function Count(q: char, s: string): nat
  {
    multiset(s)[q]
  }

  /** `s.replace(/q/g, qq)`: every `q` doubled, every other character kept. */
  function Double(q: char, s: string): (r: string)
    ensures |r| == |s| + Count(q, s)
  {
    if s == [] then []
    else
      assert s == [s[0]] + s[1..];
      (if s[0] == q then [q, q] else [s[0]]) + Double(q, s[1..])
  }

  /** `${q}${s.replace(/q/g, qq)}${q}`. */
  function Quote(q: char, s: string): (r: string)
    ensures |r| == |s| + Count(q, s) + 2
    ensures r[0] == q && r[|r| - 1] == q
    ensures r[1..|r| - 1] == Double(q, s)
  {
    [q] + Double(q, s) + [q]
  }

  /** `quote_ident`: a double-quoted SQL identifier. */
  function QuoteIdent(ident: string): (r: string)
    ensures |r| == |ident| + Count('"', ident) + 2
    ensures r[0] == '"' && r[|r| - 1] == '"'
    ensures r[1..|r| - 1] == Double('"', ident)
  {
    Quote('"', ident)
  }

  /** `quote_literal`: a single-quoted SQL string literal. */
  function QuoteLiteral(s: string): (r: string)
    ensures |r| == |s| + Count('\'', s) + 2
    ensures r[0] == '\'' && r[|r| - 1] == '\''
    ensures r[1..|r| - 1] == Double('\'', s)
  {
    Quote('\'', s)
  }

  /** The reading side: undo the doubling; fails on a quote character left alone. */
  function Undouble(q: char, t: string): Option<string>
    decreases |t|
  {
    if t == [] then Some([])
    else if t[0] != q then
      match Undouble(q, t[1..])
      case Some(u) => Some([t[0]] + u)
      case None => None
    else if |t| >= 2 && t[1] == q then
      match Undouble(q, t[2..])
      case Some(u) => Some([q] + u)
      case None => None
    else None
  }

  /** Strip the outer quotes and undo the doubling. */
  function Unquote(q: char, t: string): Option<string>
  {
    if |t| >= 2 && t[0] == q && t[|t| - 1] == q then Undouble(q, t[1..|t| - 1]) else None
  }

  /** Quote characters occur only in adjacent pairs: `t` is a run of non-quote
      characters and `qq` pairs. */
  predicate PairedQuotes(q: char, t: string)
    decreases |t|
  {
    if t == [] then true
    else if t[0] != q then PairedQuotes(q, t[1..])
    else |t| >= 2 && t[1] == q && PairedQuotes(q, t[2..])
  }

  /** Doubling distributes over concatenation: each character is escaped on its own. */
  lemma {:induction false} DoubleConcat(q: char, a: string, b: string)
    ensures Double(q, a + b) == Double(q, a) + Double(q, b)
    decreases |a|
  {
    if a == [] {
      assert a + b == b;
    } else {
      assert (a + b)[1..] == a[1..] + b;
      DoubleConcat(q, a[1..], b);
    }
  }

  /** A single character: a quote comes out doubled, anything else unchanged. */
  lemma DoubleChar(q: char, c: char)
    ensures Double(q, [c]) == if c == q then [q, q] else [c]
  {
  }

  /** Undoubling reverses doubling. */
  lemma {:induction false} UndoubleDouble(q: char, s: string)
    ensures Undouble(q, Double(q, s)) == Some(s)
    decreases |s|
  {
    if s != [] {
      UndoubleDouble(q, s[1..]);
      var d := Double(q, s);
      if s[0] == q {
        assert d[2..] == Double(q, s[1..]);
      } else {
        assert d[1..] == Double(q, s[1..]);
      }
      assert s == [s[0]] + s[1..];
    }
  }

  /** The escaped text always has its quotes paired. */
  lemma {:induction false} DoublePaired(q: char, s: string)
    ensures PairedQuotes(q, Double(q, s))
    decreases |s|
  {
    if s != [] {
      DoublePaired(q, s[1..]);
      var d := Double(q, s);
      if s[0] == q {
        assert d[2..] == Double(q, s[1..]);
      } else {
        assert d[1..] == Double(q, s[1..]);
      }
    }
  }

  /** Conversely every text with paired quotes is the escape of exactly the string
      that undoubling recovers, so the escaped strings are precisely the paired ones. */
  lemma {:induction false} PairedIsDoubled(q: char, t: string)
    requires PairedQuotes(q, t)
    ensures Undouble(q, t).Some? && Double(q, Undouble(q, t).value) == t
    decreases |t|
  {
    if t != [] {
      if t[0] != q {
        PairedIsDoubled(q, t[1..]);
        var u := Undouble(q, t[1..]).value;
        assert Undouble(q, t).value == [t[0]] + u;
        assert ([t[0]] + u)[1..] == u;
        assert t == [t[0]] + t[1..];
      } else {
        PairedIsDoubled(q, t[2..]);
        var u := Undouble(q, t[2..]).value;
        assert Undouble(q, t).value == [q] + u;
        assert ([q] + u)[1..] == u;
        assert t == [q, q] + t[2..];
      }
    }
  }

  /** Round trip: stripping the outer quotes and undoubling gives the input back. */
  lemma QuoteRoundTrip(q: char, s: string)
    ensures Unquote(q, Quote(q, s)) == Some(s)
  {
    UndoubleDouble(q, s);
  }

  /** Quoting is injective, so distinct names never collide once quoted. */
  lemma QuoteInjective(q: char, a: string, b: string)
    requires Quote(q, a) == Quote(q, b)
    ensures a == b
  {
    QuoteRoundTrip(q, a);
    QuoteRoundTrip(q, b);
  }

  /** Inside the outer quotes of `quote_ident`, `"` occurs only in adjacent pairs,
      and the identifier is recovered from the quoted form. */
  lemma QuoteIdentSound(ident: string)
    ensures var r := QuoteIdent(ident);
      PairedQuotes('"', r[1..|r| - 1]) && Unquote('"', r) == Some(ident)
  {
    DoublePaired('"', ident);
    QuoteRoundTrip('"', ident);
  }

  /** The same for `quote_literal` and `'`. */
  lemma QuoteLiteralSound(s: string)
    ensures var r := QuoteLiteral(s);
      PairedQuotes('\'', r[1..|r| - 1]) && Unquote('\'', r) == Some(s)
  {
    DoublePaired('\'', s);
    QuoteRoundTrip('\'', s);
  }
}
