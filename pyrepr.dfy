/** Python's `str` and `repr` of the values a label may hold. */
module PyRepr {
  import opened Wrappers
  import opened PyValues

  /** `str(i)` for an int: an optional minus sign, then the decimal digits. */
  function IntText(i: int): (r: string)
    ensures |r| > 0
  {
    if i < 0 then "-" + DecimalString(-i) else DecimalString(i)
  }

  // Python's `<` on strings, which orders the keys of the dicts the model writes out

  /** `a < b` on Python strings: code-point order, a proper prefix first. */
  predicate StrBefore(a: string, b: string) {
    if a == [] then b != []
    else if b == [] then false
    else if a[0] != b[0] then a[0] < b[0]
    else StrBefore(a[1..], b[1..])
  }

  /** Exactly one of `a == b`, `a < b`, `b < a` holds. */
  lemma {:induction false} StrBeforeTrichotomy(a: string, b: string)
    ensures a == b || StrBefore(a, b) || StrBefore(b, a)
    ensures !(StrBefore(a, b) && StrBefore(b, a))
    ensures !StrBefore(a, a)
  {
    if a != [] && b != [] && a[0] == b[0] {
      StrBeforeTrichotomy(a[1..], b[1..]);
      assert a == [a[0]] + a[1..] && b == [b[0]] + b[1..];
    }
    if a != [] {
      StrBeforeTrichotomy(a[1..], a[1..]);
    }
  }

  lemma {:induction false} StrBeforeTransitive(a: string, b: string, c: string)
    requires StrBefore(a, b) && StrBefore(b, c)
    ensures StrBefore(a, c)
  {
    if a != [] && a[0] == b[0] && b[0] == c[0] {
      StrBeforeTransitive(a[1..], b[1..], c[1..]);
    }
  }

  predicate IsLeast(k: string, s: set<string>) {
    k in s && forall k' :: k' in s ==> !StrBefore(k', k)
  }

  /** A non-empty set of strings has a least element. */
  lemma {:induction false} LeastExists(s: set<string>)
    requires s != {}
    ensures exists k :: IsLeast(k, s)
    decreases |s|
  {
    var x :| x in s;
    var rest := s - {x};
    if rest == {} {
      assert s == {x};
      StrBeforeTrichotomy(x, x);
      assert IsLeast(x, s);
    } else {
      LeastExists(rest);
      var m :| IsLeast(m, rest);
      if StrBefore(x, m) {
        forall k' | k' in s
          ensures !StrBefore(k', x)
        {
          if k' == x {
            StrBeforeTrichotomy(x, x);
          } else if StrBefore(k', x) {
            StrBeforeTransitive(k', x, m);
          }
        }
        assert IsLeast(x, s);
      } else {
        assert IsLeast(m, s);
      }
    }
  }

  /** Two least elements of one set are the same string. */
  lemma LeastUnique(s: set<string>)
    ensures forall k1, k2 :: IsLeast(k1, s) && IsLeast(k2, s) ==> k1 == k2
  {
    forall k1, k2 | IsLeast(k1, s) && IsLeast(k2, s)
      ensures k1 == k2
    {
      StrBeforeTrichotomy(k1, k2);
    }
  }

  /** The keys of a dict in ascending code-point order; a map keeps no insertion order, so this order stands in for it. */
  function SortedKeys(s: set<string>): (r: seq<string>)
    ensures |r| == |s|
    ensures forall k :: k in s <==> k in r
    ensures forall a, b :: 0 <= a < b < |r| ==> StrBefore(r[a], r[b])
    decreases |s|
  {
    if s == {} then []
    else
      LeastExists(s);
      LeastUnique(s);
      var k :| IsLeast(k, s);
      var rest := SortedKeys(s - {k});
      assert forall b :: 0 <= b < |rest| ==> StrBefore(k, rest[b]) by {
        forall b | 0 <= b < |rest|
          ensures StrBefore(k, rest[b])
        {
          assert rest[b] in s - {k};
          StrBeforeTrichotomy(k, rest[b]);
        }
      }
      [k] + rest
  }

  // repr of a string

  function HexDigit(d: int): char
    requires 0 <= d < 16
  {
    "0123456789abcdef"[d]
  }

  function HexValue(c: char): (d: int)
    ensures c in "0123456789abcdef" ==> 0 <= d < 16 && HexDigit(d) == c
  {
    if '0' <= c <= '9' then c as int - '0' as int
    else if 'a' <= c <= 'f' then c as int - 'a' as int + 10
    else -1
  }

  /** How `repr` writes one character of a string quoted with `q` (ASCII escapes only). */
  function EscapeChar(c: char, q: char): (r: string)
    ensures |r| > 0
  {
    if c == '\\' || c == q then ['\\', c]
    else if c == '\t' then "\\t"
    else if c == '\n' then "\\n"
    else if c == '\r' then "\\r"
    else if c < ' ' || c as int == 0x7f then ['\\', 'x', HexDigit(c as int / 16), HexDigit(c as int % 16)]
    else [c]
  }

  function Escaped(s: string, q: char): string {
    if s == [] then [] else EscapeChar(s[0], q) + Escaped(s[1..], q)
  }

  /**
   * `repr(s)`: the text between single quotes, or between double quotes when it holds a
   * single quote and no double quote; backslashes and the chosen quote are escaped.
   */
  function StrRepr(s: string): (r: string)
    ensures |r| >= 2 && r[0] == r[|r| - 1] && r[0] in "'\""
    ensures r[0] == '"' <==> '\'' in s && '"' !in s
  {
    var q := if '\'' in s && '"' !in s then '"' else '\'';
    [q] + Escaped(s, q) + [q]
  }

  /** Reads back the body of a string literal written by `StrRepr`; None on a dangling escape. */
  function Unescape(t: string): Option<string> {
    if t == [] then Some([])
    else if t[0] != '\\' then Prepend(t[0], Unescape(t[1..]))
    else if |t| < 2 then None
    else if t[1] == 't' then Prepend('\t', Unescape(t[2..]))
    else if t[1] == 'n' then Prepend('\n', Unescape(t[2..]))
    else if t[1] == 'r' then Prepend('\r', Unescape(t[2..]))
    else if t[1] == 'x' then
      if |t| < 4 || HexValue(t[2]) < 0 || HexValue(t[3]) < 0 then None
      else Prepend((16 * HexValue(t[2]) + HexValue(t[3])) as char, Unescape(t[4..]))
    else Prepend(t[1], Unescape(t[2..]))
  }

  function Prepend(c: char, o: Option<string>): Option<string> {
    match o
    case None => None
    case Some(s) => Some([c] + s)
  }

  lemma UnescapeChar(c: char, q: char, t: string)
    requires q == '\'' || q == '"'
    ensures Unescape(EscapeChar(c, q) + t) == Prepend(c, Unescape(t))
  {
    var u := EscapeChar(c, q) + t;
    if c == '\\' || c == q {
      assert u == ['\\', c] + t && u[2..] == t;
    } else if c == '\t' || c == '\n' || c == '\r' {
      assert u[0] == '\\' && u[2..] == t;
    } else if c < ' ' || c as int == 0x7f {
      UnescapeHex(c, t);
    } else {
      assert u == [c] + t && u[1..] == t;
    }
  }

  /** A control character written as `\xhh` reads back as itself. */
  lemma UnescapeHex(c: char, t: string)
    requires c < ' ' || c as int == 0x7f
    ensures Unescape(['\\', 'x', HexDigit(c as int / 16), HexDigit(c as int % 16)] + t) == Prepend(c, Unescape(t))
  {
    var hi, lo := c as int / 16, c as int % 16;
    var u := ['\\', 'x', HexDigit(hi), HexDigit(lo)] + t;
    assert u[4..] == t;
    assert HexValue(u[2]) == hi && HexValue(u[3]) == lo;
  }

  /** The literal `repr` writes reads back as the original string. */
  lemma {:induction false} UnescapeEscaped(s: string, q: char)
    requires q == '\'' || q == '"'
    ensures Unescape(Escaped(s, q)) == Some(s)
  {
    if s != [] {
      UnescapeEscaped(s[1..], q);
      UnescapeChar(s[0], q, Escaped(s[1..], q));
      assert [s[0]] + s[1..] == s;
    }
  }

  /** The string between the quotes of `repr(s)` reads back as `s`. */
  lemma StrReprRoundTrip(s: string)
    ensures var r := StrRepr(s); Unescape(r[1..|r| - 1]) == Some(s)
  {
    var q := if '\'' in s && '"' !in s then '"' else '\'';
    var r := StrRepr(s);
    assert r[1..|r| - 1] == Escaped(s, q);
    UnescapeEscaped(s, q);
  }

  // str of a list or a dict

  /** `sep.join(parts)`; the empty list joins to the empty text. */
  function JoinWith(parts: seq<string>, sep: string): string {
    if parts == [] then [] else if |parts| == 1 then parts[0] else parts[0] + sep + JoinWith(parts[1..], sep)
  }

  /** The `'key': value` items of a dict, in the order of `keys`. */
  function DictEntries(fields: map<string, Json>, keys: seq<string>): (r: seq<string>)
    requires forall k :: 0 <= k < |keys| ==> keys[k] in fields
    ensures |r| == |keys|
    decreases JObj(fields), 0
  {
    seq(|keys|, k requires 0 <= k < |keys| => StrRepr(keys[k]) + ": " + Repr(fields[keys[k]]))
  }

  /**
   * `repr(j)`, which is also `str(j)` for everything but a string: None, True, False, decimal
   * ints, quoted strings, `[a, b]` lists and `{'k': v}` dicts with the keys in sorted order.
   */
  function Repr(j: Json): (r: string)
    ensures |r| > 0
    ensures j.JStr? ==> r == StrRepr(j.s)
    ensures j.JArr? ==> r[0] == '[' && r[|r| - 1] == ']'
    ensures j.JObj? ==> r[0] == '{' && r[|r| - 1] == '}'
    decreases j, 1
  {
    match j
    case JNull => "None"
    case JBool(b) => if b then "True" else "False"
    case JInt(i) => IntText(i)
    case JStr(s) => StrRepr(s)
    case JArr(items) =>
      "[" + JoinWith(seq(|items|, k requires 0 <= k < |items| => Repr(items[k])), ", ") + "]"
    case JObj(fields) =>
      var keys := SortedKeys(fields.Keys);
      "{" + JoinWith(DictEntries(fields, keys), ", ") + "}"
  }

  /** Printable ASCII text without backslashes or the quote character is written unchanged. */
  lemma {:induction false} EscapedPlain(s: string, q: char)
    requires forall k :: 0 <= k < |s| ==> ' ' <= s[k] < 0x7f as char && s[k] != '\\' && s[k] != q
    ensures Escaped(s, q) == s
  {
    if s != [] {
      EscapedPlain(s[1..], q);
      assert [s[0]] + s[1..] == s;
    }
  }

  /** A one-item list is written as its item between brackets. */
  lemma ReprSingleton(j: Json)
    ensures Repr(JArr([j])) == "[" + Repr(j) + "]"
  {
    var parts := seq(1, k requires 0 <= k < 1 => Repr([j][k]));
    assert parts == [Repr(j)];
  }

  /** `str([1])` is `'[1]'`. */
  lemma ReprListExample()
    ensures Repr(JArr([JInt(1)])) == "[1]"
  {
    ReprSingleton(JInt(1));
    assert DecimalString(1) == "1";
  }

  /** Two keys are listed in their order. */
  lemma SortedTwoKeys(a: string, b: string)
    requires StrBefore(a, b)
    ensures SortedKeys({a, b}) == [a, b]
  {
    var keys := SortedKeys({a, b});
    StrBeforeTrichotomy(a, b);
    StrBeforeTrichotomy(a, a);
    StrBeforeTrichotomy(b, b);
    assert keys[0] in {a, b} && keys[1] in {a, b};
    assert StrBefore(keys[0], keys[1]);
  }

  /** A key of printable ASCII text without quotes or backslashes is written between single quotes. */
  lemma StrReprPlain(s: string)
    requires forall k :: 0 <= k < |s| ==> ' ' <= s[k] < 0x7f as char && s[k] !in "\\'\""
    ensures StrRepr(s) == "'" + s + "'"
  {
    EscapedPlain(s, '\'');
  }

  lemma JoinTwo(a: string, b: string, sep: string)
    ensures JoinWith([a, b], sep) == a + sep + b
  {
    assert [a, b][1..] == [b];
  }

  /** A dict with two keys is written as both entries, the smaller key first, between braces. */
  lemma ReprTwoFields(fields: map<string, Json>, a: string, b: string)
    requires fields.Keys == {a, b} && StrBefore(a, b)
    ensures Repr(JObj(fields)) ==
      "{" + StrRepr(a) + ": " + Repr(fields[a]) + ", " + StrRepr(b) + ": " + Repr(fields[b]) + "}"
  {
    SortedTwoKeys(a, b);
    var ka, kb, va, vb := StrRepr(a), StrRepr(b), Repr(fields[a]), Repr(fields[b]);
    var ea, eb := ka + ": " + va, kb + ": " + vb;
    assert DictEntries(fields, [a, b]) == [ea, eb];
    JoinTwo(ea, eb, ", ");
    assert Repr(JObj(fields)) == "{" + (ea + ", " + eb) + "}";
    AppendAssoc("{", ea + ", ", eb);
    AppendAssoc("{", ea, ", ");
    AppendAssoc("{", ka + ": ", va);
    AppendAssoc("{", ka, ": ");
    var front := "{" + ka + ": " + va + ", ";
    AppendAssoc(front, kb + ": ", vb);
    AppendAssoc(front, kb, ": ");
  }

  lemma QuotedKeys()
    ensures StrRepr("a") == "'a'" && StrRepr("b") == "'b'" && StrBefore("a", "b")
  {
    StrReprPlain("a");
    StrReprPlain("b");
  }

  /** A dict is written with its keys in sorted order, whatever order they were inserted in. */
  lemma ReprDictExample(x: Json, y: Json)
    ensures Repr(JObj(map["b" := y, "a" := x])) == "{" + "'a'" + ": " + Repr(x) + ", " + "'b'" + ": " + Repr(y) + "}"
  {
    var fields := map["b" := y, "a" := x];
    assert fields.Keys == {"a", "b"} && fields["a"] == x && fields["b"] == y;
    QuotedKeys();
    ReprTwoFields(fields, "a", "b");
  }

  /** Printable ASCII text holding a single quote but no double quote or backslash is written between double quotes. */
  lemma StrReprDoubleQuoted(s: string)
    requires forall k :: 0 <= k < |s| ==> ' ' <= s[k] < 0x7f as char && s[k] != '\\' && s[k] != '"'
    requires '\'' in s
    ensures StrRepr(s) == "\"" + s + "\""
  {
    EscapedPlain(s, '"');
  }

  /** A string holding a single quote and no double quote is written between double quotes. */
  lemma ReprQuoteExample()
    ensures Repr(JArr([JStr("it's")])) == "[\"it's\"]"
  {
    ReprSingleton(JStr("it's"));
    assert "it's"[2] == '\'';
    StrReprDoubleQuoted("it's");
  }
}
