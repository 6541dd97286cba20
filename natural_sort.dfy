/**
 * natural_sort_key / natural_sort: strings compared as alternating text runs and digit runs,
 * the digit runs by their integer value. Characters are ASCII here.
 */
module NaturalSort {
  import opened PyValues
  import opened Sorting
  import opened PyRepr

  /** One element of a natural sort key: a lower-cased text run, or the value of a digit run. */
  datatype Part = Text(text: string) | Num(n: nat)

  type Key = seq<Part>

  predicate DigitFree(s: string) {
    forall k :: 0 <= k < |s| ==> !IsDigit(s[k])
  }

  predicate AllDigits(s: string) {
    forall k :: 0 <= k < |s| ==> IsDigit(s[k])
  }

  /** The parts joined back together. */
  function Concat(parts: seq<string>): string {
    if parts == [] then [] else parts[0] + Concat(parts[1..])
  }

  /**
   * Text runs at even positions (the first and last may be empty, the others are not) and
   * non-empty digit runs at odd positions.
   */
  predicate Alternates(parts: seq<string>) {
    && |parts| % 2 == 1
    && (forall k :: 0 <= k < |parts| && k % 2 == 0 ==> DigitFree(parts[k]))
    && (forall k :: 0 <= k < |parts| && k % 2 == 1 ==> parts[k] != [] && AllDigits(parts[k]))
    && (forall k :: 0 < k < |parts| - 1 && k % 2 == 0 ==> parts[k] != [])
  }

  /** `re.split('([0-9]+)', s)`: the capture group keeps the digit runs between the text runs. */
  function SplitDigits(s: string): (parts: seq<string>)
    ensures |parts| % 2 == 1
    ensures s != [] && IsDigit(s[0]) ==> |parts| >= 3 && parts[0] == []
  {
    if s == [] then [[]]
    else
      var rest := SplitDigits(s[1..]);
      if !IsDigit(s[0]) then [[s[0]] + rest[0]] + rest[1..]
      else if |s| > 1 && IsDigit(s[1]) then [[], [s[0]] + rest[1]] + rest[2..]
      else [[], [s[0]]] + rest
  }

  /** The split loses nothing. */
  lemma {:induction false} SplitDigitsConcat(s: string)
    ensures Concat(SplitDigits(s)) == s
  {
    if s != [] {
      var rest := SplitDigits(s[1..]);
      SplitDigitsConcat(s[1..]);
      if !IsDigit(s[0]) {
        assert SplitDigits(s)[1..] == rest[1..];
        assert Concat(rest) == rest[0] + Concat(rest[1..]);
      } else if |s| > 1 && IsDigit(s[1]) {
        assert SplitDigits(s)[1..][1..] == rest[2..] == rest[1..][1..];
        assert Concat(rest[1..]) == rest[1] + Concat(rest[2..]);
      } else {
        assert SplitDigits(s)[1..][1..] == rest;
      }
    }
  }

  /** A text character joins the first text run. */
  lemma AlternatesText(c: char, rest: seq<string>)
    requires Alternates(rest) && !IsDigit(c)
    ensures Alternates([[c] + rest[0]] + rest[1..])
  {
    var parts := [[c] + rest[0]] + rest[1..];
    assert forall k :: 0 < k < |parts| ==> parts[k] == rest[k];
    assert DigitFree(parts[0]) by {
      forall k | 0 <= k < |parts[0]| ensures !IsDigit(parts[0][k]) {
        if k > 0 {
          assert parts[0][k] == rest[0][k - 1];
        }
      }
    }
  }

  /** A digit followed by a digit joins the first digit run. */
  lemma AlternatesDigitJoin(c: char, rest: seq<string>)
    requires Alternates(rest) && |rest| >= 3 && rest[0] == [] && IsDigit(c)
    ensures Alternates([[], [c] + rest[1]] + rest[2..])
  {
    var parts := [[], [c] + rest[1]] + rest[2..];
    assert forall k :: 1 < k < |parts| ==> parts[k] == rest[k];
    assert AllDigits(parts[1]) by {
      forall k | 0 <= k < |parts[1]| ensures IsDigit(parts[1][k]) {
        if k > 0 {
          assert parts[1][k] == rest[1][k - 1];
        }
      }
    }
  }

  /** A digit followed by text, or by nothing, is a digit run of its own. */
  lemma AlternatesDigitEnd(c: char, rest: seq<string>)
    requires Alternates(rest) && IsDigit(c) && (|rest| > 1 ==> rest[0] != [])
    ensures Alternates([[], [c]] + rest)
  {
    var parts := [[], [c]] + rest;
    assert forall k :: 1 < k < |parts| ==> parts[k] == rest[k - 2];
  }

  /** The split cuts exactly at the boundaries of the maximal digit runs. */
  lemma {:induction false} SplitDigitsAlternates(s: string)
    ensures Alternates(SplitDigits(s))
  {
    if s != [] {
      var rest := SplitDigits(s[1..]);
      SplitDigitsAlternates(s[1..]);
      if !IsDigit(s[0]) {
        AlternatesText(s[0], rest);
      } else if |s| > 1 && IsDigit(s[1]) {
        AlternatesDigitJoin(s[0], rest);
      } else {
        if |s| > 1 {
          var tail := SplitDigits(s[2..]);
          assert s[1..][1..] == s[2..];
          assert rest[0] == [s[1]] + tail[0];
        }
        AlternatesDigitEnd(s[0], rest);
      }
    }
  }

  function LowerChar(c: char): char {
    if 'A' <= c <= 'Z' then (c as int - 'A' as int + 'a' as int) as char else c
  }

  /** `str.lower` on ASCII text. */
  function Lower(s: string): string {
    seq(|s|, k requires 0 <= k < |s| => LowerChar(s[k]))
  }

  /** natural_sort_key's `convert`: `int(text)` when `text.isdigit()`, else `text.lower()`. */
  function Convert(text: string): Part {
    if text != [] && AllDigits(text) then Num(DecimalValue(text)) else Text(Lower(text))
  }

  /** natural_sort_key. */
  function NaturalKey(s: string): (key: Key)
    ensures |key| == |SplitDigits(s)|
  {
    var parts := SplitDigits(s);
    seq(|parts|, k requires 0 <= k < |parts| => Convert(parts[k]))
  }

  /** The key alternates lower-cased text and integers, starting and ending with text. */
  lemma {:induction false} NaturalKeyShape(s: string)
    ensures |NaturalKey(s)| % 2 == 1
    ensures forall k :: 0 <= k < |NaturalKey(s)| ==> (NaturalKey(s)[k].Num? <==> k % 2 == 1)
    ensures forall k :: 0 <= k < |NaturalKey(s)| && k % 2 == 1 ==>
      AllDigits(SplitDigits(s)[k]) && NaturalKey(s)[k] == Num(DecimalValue(SplitDigits(s)[k]))
    ensures forall k :: 0 <= k < |NaturalKey(s)| && k % 2 == 0 ==>
      NaturalKey(s)[k] == Text(Lower(SplitDigits(s)[k]))
  {
    SplitDigitsAlternates(s);
    var parts := SplitDigits(s);
    forall k | 0 <= k < |parts| && k % 2 == 0 && parts[k] != []
      ensures !AllDigits(parts[k])
    {
      assert !IsDigit(parts[k][0]);
    }
  }

  /**
   * Two natural keys hold an integer at the same positions, so Python's list `<` on them never
   * compares an int with a str.
   */
  lemma {:induction false} NaturalKeysAligned(a: string, b: string)
    ensures forall k :: 0 <= k < |NaturalKey(a)| && k < |NaturalKey(b)| ==>
      NaturalKey(a)[k].Num? == NaturalKey(b)[k].Num?
  {
    NaturalKeyShape(a);
    NaturalKeyShape(b);
  }

  function CharLess(x: char, y: char): bool {
    x < y
  }

  /** `<` between two key elements of the same kind; mixed kinds never meet (NaturalKeysAligned). */
  function PartLess(p: Part, q: Part): bool {
    match (p, q)
    case (Text(s), Text(t)) => LexLess(s, t, CharLess)
    case (Num(m), Num(n)) => m < n
    case _ => false
  }

  /** Python's `<` on two keys. */
  function KeyLess(a: Key, b: Key): bool {
    LexLess(a, b, PartLess)
  }

  lemma PartLessStrict()
    ensures StrictOrder(PartLess)
  {
    forall p: Part ensures !PartLess(p, p) {
      if p.Text? {
        LexIrreflexive(p.text, CharLess);
      }
    }
    forall p: Part, q: Part, r: Part | PartLess(p, q) && PartLess(q, r)
      ensures PartLess(p, r)
    {
      if p.Text? {
        LexTransitive(p.text, q.text, r.text, CharLess);
      }
    }
  }

  /** natural_sort's comparison of two items: by their natural keys. */
  function NaturalLess(a: string, b: string): bool {
    KeyLess(NaturalKey(a), NaturalKey(b))
  }

  /** natural_sort's key with `only_use_digits`: the integers of the digit runs alone. */
  function DigitsKey(s: string): (key: Key) {
    DigitRuns(SplitDigits(s))
  }

  function DigitRuns(parts: seq<string>): (key: Key) {
    if parts == [] then []
    else (if parts[0] != [] && AllDigits(parts[0]) then [Num(DecimalValue(parts[0]))] else []) + DigitRuns(parts[1..])
  }

  /** The digits-only key is the natural key with its text elements dropped. */
  lemma {:induction false} DigitRunsOdd(parts: seq<string>)
    requires |parts| % 2 == 1
    requires forall k :: 0 <= k < |parts| && k % 2 == 0 ==> DigitFree(parts[k])
    requires forall k :: 0 <= k < |parts| && k % 2 == 1 ==> parts[k] != [] && AllDigits(parts[k])
    ensures |DigitRuns(parts)| == |parts| / 2
    ensures forall k :: 0 <= k < |parts| / 2 ==> DigitRuns(parts)[k] == Convert(parts[2 * k + 1])
  {
    if |parts| > 1 {
      var tail := parts[2..];
      DigitRunsOdd(tail);
      assert parts[0] != [] ==> !IsDigit(parts[0][0]);
      assert DigitRuns(parts[1..]) == [Convert(parts[1])] + DigitRuns(tail) by {
        assert parts[1..][1..] == tail;
      }
    } else {
      assert parts[0] != [] ==> !IsDigit(parts[0][0]);
    }
  }

  lemma {:induction false} DigitsKeySpec(s: string)
    ensures |DigitsKey(s)| == |NaturalKey(s)| / 2
    ensures forall k :: 0 <= k < |DigitsKey(s)| ==> DigitsKey(s)[k] == NaturalKey(s)[2 * k + 1]
  {
    SplitDigitsAlternates(s);
    DigitRunsOdd(SplitDigits(s));
  }

  function DigitsLess(a: string, b: string): bool {
    KeyLess(DigitsKey(a), DigitsKey(b))
  }

  /**
   * natural_sort's comparison of two items: by the keys of their `str`, which `text` gives, so
   * that a list of ints or of any other values sorts as well as a list of strings.
   */
  function TextKeyLess<T>(text: T -> string, onlyUseDigits: bool): (T, T) -> bool {
    (a: T, b: T) => if onlyUseDigits then DigitsLess(text(a), text(b)) else NaturalLess(text(a), text(b))
  }

  /** natural_sort: `sorted(ls, key=...)`, the key taken of each item's `str`. */
  function NaturalSorted<T>(ls: seq<T>, text: T -> string, onlyUseDigits: bool): (r: seq<T>) {
    Sort(ls, TextKeyLess(text, onlyUseDigits))
  }

  lemma KeyLessStrict()
    ensures StrictOrder(NaturalLess) && StrictOrder(DigitsLess)
  {
    PartLessStrict();
    LexStrictOrder(PartLess);
    forall a: string, b: string, c: string | NaturalLess(a, b) && NaturalLess(b, c)
      ensures NaturalLess(a, c)
    {
      LexTransitive(NaturalKey(a), NaturalKey(b), NaturalKey(c), PartLess);
    }
    forall a: string, b: string, c: string | DigitsLess(a, b) && DigitsLess(b, c)
      ensures DigitsLess(a, c)
    {
      LexTransitive(DigitsKey(a), DigitsKey(b), DigitsKey(c), PartLess);
    }
    forall a: string ensures !NaturalLess(a, a) && !DigitsLess(a, a) {
      LexIrreflexive(NaturalKey(a), PartLess);
      LexIrreflexive(DigitsKey(a), PartLess);
    }
  }

  lemma TextKeyLessApply<T>(text: T -> string, onlyUseDigits: bool, a: T, b: T)
    ensures TextKeyLess(text, onlyUseDigits)(a, b) ==
      if onlyUseDigits then DigitsLess(text(a), text(b)) else NaturalLess(text(a), text(b))
  {
  }

  /** Comparing the items through their text keeps a strict order. */
  lemma TextKeyLessStrict<T(!new)>(text: T -> string, onlyUseDigits: bool)
    ensures StrictOrder(TextKeyLess(text, onlyUseDigits))
  {
    KeyLessStrict();
    var less := TextKeyLess(text, onlyUseDigits);
    forall a: T, b: T, c: T | less(a, b) && less(b, c) ensures less(a, c) {
      assert less(a, b) == (if onlyUseDigits then DigitsLess(text(a), text(b)) else NaturalLess(text(a), text(b)));
    }
  }

  /**
   * natural_sort returns its input items permuted into the order of the keys of their `str`: no
   * later item's key is smaller.
   */
  lemma {:induction false} NaturalSortedSpec<T(!new)>(ls: seq<T>, text: T -> string, onlyUseDigits: bool)
    ensures multiset(NaturalSorted(ls, text, onlyUseDigits)) == multiset(ls)
    ensures var r := NaturalSorted(ls, text, onlyUseDigits);
      forall i, j :: 0 <= i < j < |r| ==>
        if onlyUseDigits then !KeyLess(DigitsKey(text(r[j])), DigitsKey(text(r[i])))
        else !KeyLess(NaturalKey(text(r[j])), NaturalKey(text(r[i])))
  {
    var less := TextKeyLess(text, onlyUseDigits);
    TextKeyLessStrict(text, onlyUseDigits);
    SortPermutes(ls, less);
    SortSorts(ls, less);
    var r := NaturalSorted(ls, text, onlyUseDigits);
    forall i, j | 0 <= i < j < |r|
      ensures if onlyUseDigits then !KeyLess(DigitsKey(text(r[j])), DigitsKey(text(r[i])))
        else !KeyLess(NaturalKey(text(r[j])), NaturalKey(text(r[i])))
    {
      assert !less(r[j], r[i]);
    }
  }

  /** A digit-free prefix joins the first text run of the rest. */
  lemma {:induction false} SplitDigitsText(t: string, rest: string)
    requires DigitFree(t)
    ensures SplitDigits(t + rest) == [t + SplitDigits(rest)[0]] + SplitDigits(rest)[1..]
  {
    if t != [] {
      var s := t + rest;
      assert s[0] == t[0] && !IsDigit(s[0]);
      assert s[1..] == t[1..] + rest;
      assert DigitFree(t[1..]) by {
        forall k | 0 <= k < |t[1..]| ensures !IsDigit(t[1..][k]) {
          assert t[1..][k] == t[k + 1];
        }
      }
      SplitDigitsText(t[1..], rest);
      var r := SplitDigits(s[1..]);
      assert SplitDigits(s) == [[s[0]] + r[0]] + r[1..];
      assert [t[0]] + (t[1..] + SplitDigits(rest)[0]) == t + SplitDigits(rest)[0];
    } else {
      var r := SplitDigits(rest);
      assert t + rest == rest && t + r[0] == r[0];
      assert [r[0]] + r[1..] == r;
    }
  }

  /** A maximal run of digits becomes an empty text run and the digit run, then the rest's split. */
  lemma {:induction false} SplitDigitsRun(d: string, rest: string)
    requires d != [] && AllDigits(d) && (rest == [] || !IsDigit(rest[0]))
    ensures SplitDigits(d + rest) == ["", d] + SplitDigits(rest)
  {
    var s := d + rest;
    assert s[0] == d[0] && IsDigit(s[0]);
    assert s[1..] == d[1..] + rest;
    var r := SplitDigits(s[1..]);
    if |d| > 1 {
      assert s[1] == d[1] && IsDigit(s[1]);
      assert AllDigits(d[1..]) by {
        forall k | 0 <= k < |d[1..]| ensures IsDigit(d[1..][k]) {
          assert d[1..][k] == d[k + 1];
        }
      }
      SplitDigitsRun(d[1..], rest);
      assert SplitDigits(s) == [[], [s[0]] + r[1]] + r[2..];
      assert [d[0]] + d[1..] == d;
    } else {
      assert d == [s[0]] && s[1..] == rest;
      assert SplitDigits(s) == [[], [s[0]]] + r;
    }
  }

  /** A common prefix does not decide Python's `<` on lists. */
  lemma {:induction false} LexCommonPrefix<T>(p: seq<T>, a: seq<T>, b: seq<T>, less: (T, T) -> bool)
    ensures LexLess(p + a, p + b, less) == LexLess(a, b, less)
  {
    if p != [] {
      assert (p + a)[1..] == p[1..] + a && (p + b)[1..] == p[1..] + b;
      LexCommonPrefix(p[1..], a, b, less);
    } else {
      assert p + a == a && p + b == b;
    }
  }

  lemma DecimalExamples()
    ensures DecimalValue("0") == 0 && DecimalValue("1") == 1 && DecimalValue("2") == 2
    ensures DecimalValue("10") == 10 && DecimalValue("12") == 12 && DecimalValue("23") == 23
    ensures DecimalValue("43") == 43
  {
    assert "0"[..0] == "1"[..0] == "2"[..0] == "4"[..0] == [];
    assert "10"[..1] == "1" && "12"[..1] == "1" && "23"[..1] == "2" && "43"[..1] == "4";
  }

  /** A text run followed by a maximal digit run. */
  lemma {:induction false} SplitTextRun(t: string, m: string, rest: string)
    requires DigitFree(t) && m != [] && AllDigits(m) && (rest == [] || !IsDigit(rest[0]))
    ensures SplitDigits(t + (m + rest)) == [t, m] + SplitDigits(rest)
  {
    var u := m + rest;
    var r, q := SplitDigits(u), SplitDigits(rest);
    assert SplitDigits(t + u) == [t + r[0]] + r[1..] by {
      SplitDigitsText(t, u);
    }
    assert r == ["", m] + q by {
      SplitDigitsRun(m, rest);
    }
    assert [t + r[0]] + r[1..] == [t, m] + q by {
      assert r[0] == [] && r[1..] == [m] + q;
      assert t + r[0] == t;
    }
  }

  /** The split of "0.<m>.<n>", for digit runs m and n. */
  lemma {:induction false} DottedSplit(m: string, n: string)
    requires m != [] && AllDigits(m) && n != [] && AllDigits(n)
    ensures SplitDigits("0." + m + "." + n) == ["", "0", ".", m, ".", n, ""]
  {
    var t := "." + (n + "");
    assert "0." + m + "." + n == "0" + ("." + (m + t));
    assert SplitDigits("") == [""];
    SplitTextRun(".", n, "");
    SplitTextRun(".", m, t);
    SplitDigitsRun("0", "." + (m + t));
  }

  /** natural_sort_key of "0.<m>.<n>", for digit runs m and n. */
  lemma {:induction false} DottedKey(m: string, n: string)
    requires m != [] && AllDigits(m) && n != [] && AllDigits(n)
    ensures NaturalKey("0." + m + "." + n) ==
      [Text(""), Num(0), Text("."), Num(DecimalValue(m)), Text("."), Num(DecimalValue(n)), Text("")]
  {
    DottedSplit(m, n);
    assert Convert("0") == Num(0) by {
      DecimalExamples();
    }
    assert Lower("") == "" && Lower(".") == ".";
    assert Convert("") == Text("") && Convert(".") == Text(".");
  }

  /** The split of "0.<m>.<n>.<k>", for digit runs m, n and k. */
  lemma {:induction false} DottedSplit4(m: string, n: string, k: string)
    requires m != [] && AllDigits(m) && n != [] && AllDigits(n) && k != [] && AllDigits(k)
    ensures SplitDigits("0." + m + "." + n + "." + k) == ["", "0", ".", m, ".", n, ".", k, ""]
  {
    var t1 := "." + (k + "");
    var t2 := "." + (n + t1);
    assert "0." + m + "." + n + "." + k == "0" + ("." + (m + t2));
    assert SplitDigits("") == [""];
    SplitTextRun(".", k, "");
    SplitTextRun(".", n, t1);
    SplitTextRun(".", m, t2);
    SplitDigitsRun("0", "." + (m + t2));
  }

  /** natural_sort_key of "0.<m>.<n>.<k>", for digit runs m, n and k. */
  lemma {:induction false} DottedKey4(m: string, n: string, k: string)
    requires m != [] && AllDigits(m) && n != [] && AllDigits(n) && k != [] && AllDigits(k)
    ensures NaturalKey("0." + m + "." + n + "." + k) ==
      [Text(""), Num(0), Text("."), Num(DecimalValue(m)), Text("."), Num(DecimalValue(n)),
       Text("."), Num(DecimalValue(k)), Text("")]
  {
    DottedSplit4(m, n, k);
    assert Convert("0") == Num(0) by {
      DecimalExamples();
    }
    assert Lower("") == "" && Lower(".") == ".";
    assert Convert("") == Text("") && Convert(".") == Text(".");
  }

  /** Strings "0.<m>.<n>" sort by the numbers m and n, not by their digits. */
  lemma {:induction false} DottedOrder(m1: string, n1: string, m2: string, n2: string)
    requires m1 != [] && AllDigits(m1) && n1 != [] && AllDigits(n1)
    requires m2 != [] && AllDigits(m2) && n2 != [] && AllDigits(n2)
    ensures NaturalLess("0." + m1 + "." + n1, "0." + m2 + "." + n2) <==>
      DecimalValue(m1) < DecimalValue(m2) ||
      (DecimalValue(m1) == DecimalValue(m2) && DecimalValue(n1) < DecimalValue(n2))
  {
    DottedKey(m1, n1);
    DottedKey(m2, n2);
    var p := [Text(""), Num(0), Text(".")];
    var a := [Num(DecimalValue(m1)), Text("."), Num(DecimalValue(n1)), Text("")];
    var b := [Num(DecimalValue(m2)), Text("."), Num(DecimalValue(n2)), Text("")];
    assert NaturalKey("0." + m1 + "." + n1) == p + a;
    assert NaturalKey("0." + m2 + "." + n2) == p + b;
    LexCommonPrefix(p, a, b, PartLess);
    if DecimalValue(m1) == DecimalValue(m2) {
      var a', b' := [Num(DecimalValue(n1)), Text("")], [Num(DecimalValue(n2)), Text("")];
      assert a[1..][1..] == a' && b[1..][1..] == b';
      assert LexLess(a, b, PartLess) == LexLess(a', b', PartLess);
      if DecimalValue(n1) == DecimalValue(n2) {
        assert a'[1..] == [Text("")] == b'[1..];
        LexIrreflexive([Text("")], PartLess) by {
          PartLessStrict();
        }
      }
    }
  }

  /** A version string comes before any extension of it: "0.<m>.<n>" before "0.<m>.<n>.<k>". */
  lemma {:induction false} DottedExtension(m: string, n: string, k: string)
    requires m != [] && AllDigits(m) && n != [] && AllDigits(n) && k != [] && AllDigits(k)
    ensures NaturalLess("0." + m + "." + n, "0." + m + "." + n + "." + k)
  {
    DottedKey(m, n);
    DottedKey4(m, n, k);
    var p := [Text(""), Num(0), Text("."), Num(DecimalValue(m)), Text("."), Num(DecimalValue(n))];
    assert NaturalKey("0." + m + "." + n) == p + [Text("")];
    assert NaturalKey("0." + m + "." + n + "." + k) == p + [Text("."), Num(DecimalValue(k)), Text("")];
    LexCommonPrefix(p, [Text("")], [Text("."), Num(DecimalValue(k)), Text("")], PartLess);
  }

  /** natural_sort_key('0.0.43') < natural_sort_key('0.0.43.1'). */
  lemma KeyPrefixExample()
    ensures KeyLess(NaturalKey("0.0.43"), NaturalKey("0.0.43.1"))
  {
    assert "0.0.43" == "0." + "0" + "." + "43";
    assert "0.0.43.1" == "0." + "0" + "." + "43" + "." + "1";
    DottedExtension("0", "43", "1");
  }

  /** natural_sort_key('0.0.2') < natural_sort_key('0.0.12'). */
  lemma KeyNumberExample()
    ensures KeyLess(NaturalKey("0.0.2"), NaturalKey("0.0.12"))
  {
    DecimalExamples();
    assert "0.0.2" == "0." + "0" + "." + "2" && "0.0.12" == "0." + "0" + "." + "12";
    DottedOrder("0", "2", "0", "12");
  }

  /** `sorted` on three items: the second comes first, the third between it and the first. */
  lemma {:induction false} SortThree<T>(x: T, y: T, z: T, less: (T, T) -> bool)
    requires less(y, x) && !less(z, y) && less(z, x)
    ensures Sort([x, y, z], less) == [y, z, x]
  {
    var ls := [x, y, z];
    assert ls[..2][..1] == [x] && ls[..2][1] == y && ls[..1][..0] == [] && ls[..2] == [x, y];
    assert Sort([x], less) == [x] by {
      assert [x][..0] == [];
    }
    assert Sort([x, y], less) == [y, x] by {
      assert [x, y][..1] == [x];
    }
    assert Insert(z, [y, x], less) == [y, z, x] by {
      assert [y, x][1..] == [x];
    }
  }

  /** natural_sort(['0.1.12', '0.0.10', '0.0.23']) == ['0.0.10', '0.0.23', '0.1.12']. */
  lemma NaturalSortExample()
    ensures NaturalSorted(["0.1.12", "0.0.10", "0.0.23"], Str, false) == ["0.0.10", "0.0.23", "0.1.12"]
  {
    var less := TextKeyLess(Str, false);
    StrKeyLess("0.0.10", "0.1.12");
    StrKeyLess("0.0.23", "0.0.10");
    StrKeyLess("0.0.23", "0.1.12");
    VersionsOrder();
    SortThree("0.1.12", "0.0.10", "0.0.23", less);
  }

  /** How the three versions of NaturalSortExample compare. */
  lemma VersionsOrder()
    ensures NaturalLess("0.0.10", "0.1.12") && !NaturalLess("0.0.23", "0.0.10") && NaturalLess("0.0.23", "0.1.12")
  {
    DecimalExamples();
    assert "0.1.12" == "0." + "1" + "." + "12" && "0.0.10" == "0." + "0" + "." + "10";
    assert "0.0.23" == "0." + "0" + "." + "23";
    DottedOrder("0", "10", "1", "12");
    DottedOrder("0", "23", "1", "12");
    DottedOrder("0", "23", "0", "10");
  }

  /** `str` of a str: the string itself. */
  function Str(s: string): string {
    s
  }

  /** Strings compared through `str` compare as themselves. */
  lemma StrKeyLess(a: string, b: string)
    ensures TextKeyLess(Str, false)(a, b) == NaturalLess(a, b)
  {
    TextKeyLessApply(Str, false, a, b);
    assert Str(a) == a && Str(b) == b;
  }

  /** The natural key of a decimal numeral: an empty text run around the number. */
  lemma NumeralKey(n: nat)
    ensures NaturalKey(DecimalString(n)) == [Text(""), Num(n), Text("")]
  {
    var d := DecimalString(n);
    assert d + "" == d;
    SplitDigitsRun(d, "");
    assert SplitDigits("") == [""];
    assert Lower("") == "";
  }

  /** Numerals sort by their value, not by their digits. */
  lemma NumeralOrder(m: nat, n: nat)
    ensures NaturalLess(DecimalString(m), DecimalString(n)) <==> m < n
  {
    NumeralKey(m);
    NumeralKey(n);
    var p := [Text("")];
    var a, b := [Num(m), Text("")], [Num(n), Text("")];
    assert NaturalKey(DecimalString(m)) == p + a && NaturalKey(DecimalString(n)) == p + b;
    LexCommonPrefix(p, a, b, PartLess);
    if m == n {
      assert a[1..] == b[1..] == [Text("")];
      LexIrreflexive([Text("")], PartLess) by {
        PartLessStrict();
      }
    }
  }

  /** natural_sort([100, 9, 10]) == [9, 10, 100]: ints are sorted through their `str`. */
  lemma NaturalSortIntsExample()
    ensures NaturalSorted([100, 9, 10], IntText, false) == [9, 10, 100]
  {
    var less := TextKeyLess(IntText, false);
    assert IntText(100) == DecimalString(100) && IntText(9) == DecimalString(9) && IntText(10) == DecimalString(10);
    NumeralOrder(9, 100);
    NumeralOrder(10, 9);
    NumeralOrder(10, 100);
    SortThree(100, 9, 10, less);
  }
}
