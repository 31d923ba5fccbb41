/** The dynamically typed values the library passes around, and the few
    JavaScript conversions the modelled code relies on (truthiness and the
    decimal text of an integer). */
module Js {

  datatype Option<+T> = None | Some(value: T)

  datatype Result<+T, +E> = Ok(value: T) | Err(error: E)

  /** A JavaScript value as far as the library inspects it. Numbers are
      integers. `Gen` is a filter-graph generator passed by value: the nodes
      it holds and the `firstInput` it was constructed with. */
  datatype Value =
    | Undefined
    | Null
    | Bool(b: bool)
    | Num(n: int)
    | Str(s: string)
    | Arr(items: seq<Value>)
    | Fn(id: nat)
    | Obj(fields: map<string, Value>)
    | Gen(nodes: seq<Node>, firstInput: Value)

  /** A filter object as the generator stores it: `inputs` is absent (None)
      or a list of labels, `outputs` is always a list of labels. */
  datatype Node = Node(filter: string, options: Value, inputs: Option<seq<string>>, outputs: seq<string>)

  /** JavaScript truthiness. */
  predicate Truthy(v: Value) {
    match v
    case Undefined => false
    case Null => false
    case Bool(b) => b
    case Num(n) => n != 0
    case Str(s) => s != ""
    case _ => true
  }

  /** The value read from an object's field: `undefined` when the key is absent. */
  function Field(m: map<string, Value>, key: string): (r: Value)
    ensures key !in m ==> r == Undefined
    ensures key in m ==> r == m[key]
  {
    if key in m then m[key] else Undefined
  }

  predicate IsDigit(c: char) { '0' <= c <= '9' }

  function DigitChar(d: nat): (c: char)
    requires d < 10
    ensures IsDigit(c) && c as int - '0' as int == d
  {
    ['0', '1', '2', '3', '4', '5', '6', '7', '8', '9'][d]
  }

  /** Decimal text of a natural number, as `String(n)` writes it. */
  function NatToString(n: nat): (r: string)
    ensures |r| >= 1
    ensures forall i :: 0 <= i < |r| ==> IsDigit(r[i])
    ensures |r| > 1 ==> r[0] != '0'
    decreases n
  {
    if n < 10 then [DigitChar(n)] else NatToString(n / 10) + [DigitChar(n % 10)]
  }

  /** Decimal text of an integer, with a leading '-' when negative. */
  function IntToString(n: int): (r: string)
    ensures |r| >= 1
    ensures (r[0] == '-') <==> n < 0
  {
    if n < 0 then "-" + NatToString(-n) else NatToString(n)
  }

  /** The value of a string of decimal digits (0 for the empty string). */
  function ParseNat(s: string): (r: nat)
    requires forall i :: 0 <= i < |s| ==> IsDigit(s[i])
  {
    if s == [] then 0
    else
      assert IsDigit(s[|s| - 1]);
      10 * ParseNat(s[..|s| - 1]) + (s[|s| - 1] as int - '0' as int)
  }

  /** Reading back the decimal text of a natural number gives the number. */
  lemma {:induction false} ParseNatToString(n: nat)
    ensures ParseNat(NatToString(n)) == n
  {
    var r := NatToString(n);
    if n >= 10 {
      var p := NatToString(n / 10);
      assert r[..|r| - 1] == p;
      ParseNatToString(n / 10);
    }
  }

  /** Different numbers have different decimal texts. */
  lemma NatToStringInjective(m: nat, n: nat)
    requires NatToString(m) == NatToString(n)
    ensures m == n
  {
    ParseNatToString(m);
    ParseNatToString(n);
  }

  /** `parts.join(sep)`. */
  function Join(parts: seq<string>, sep: string): (r: string)
    ensures parts == [] ==> r == ""
    ensures |parts| == 1 ==> r == parts[0]
  {
    if |parts| <= 1 then (if parts == [] then "" else parts[0])
    else Join(parts[..|parts| - 1], sep) + sep + parts[|parts| - 1]
  }

  /** The joined text starts with the first part and ends with the last. */
  lemma {:induction false} JoinEnds(parts: seq<string>, sep: string)
    requires parts != []
    ensures |Join(parts, sep)| >= |parts[0]| && Join(parts, sep)[..|parts[0]|] == parts[0]
    ensures var r := Join(parts, sep);
      |r| >= |parts[|parts| - 1]| && r[|r| - |parts[|parts| - 1]|..] == parts[|parts| - 1]
  {
    if |parts| > 1 {
      var init := parts[..|parts| - 1];
      JoinEnds(init, sep);
      assert init[0] == parts[0];
      assert (Join(init, sep) + sep + parts[|parts| - 1])[..|parts[0]|] == Join(init, sep)[..|parts[0]|];
    }
  }
  lemma JoinThree(a: string, b: string, c: string, sep: string)
    ensures Join([a, b], sep) == a + sep + b
    ensures Join([a, b, c], sep) == a + sep + b + sep + c
  {
    assert [a, b][..1] == [a];
    assert [a, b, c][..2] == [a, b];
  }

  /** `s.split(sep)` for a one-character separator: the pieces between the
      separators, in order (the empty text is one empty piece). */
  function Split(s: string, sep: char): (r: seq<string>)
    ensures |r| >= 1
    decreases |s|
  {
    if s == [] then [""]
    else if s[|s| - 1] == sep then Split(s[..|s| - 1], sep) + [""]
    else Extend(Split(s[..|s| - 1], sep), s[|s| - 1])
  }

  /** The pieces with one more character at the end of the last piece. */
  function Extend(pieces: seq<string>, c: char): (r: seq<string>)
    requires |pieces| >= 1
    ensures |r| == |pieces|
  {
    pieces[..|pieces| - 1] + [pieces[|pieces| - 1] + [c]]
  }

  /** Extending leaves the pieces in front alone. */
  lemma ExtendShared(p: seq<string>, r: seq<string>, c: char)
    requires |r| >= 1
    ensures Extend(p + r, c) == p + Extend(r, c)
  {
    var q := p + r;
    assert q[..|q| - 1] == p + r[..|r| - 1];
  }

  lemma {:induction false} SplitPiece(b: string, sep: char)
    requires sep !in b
    ensures Split(b, sep) == [b]
    decreases |b|
  {
    if b != [] {
      var init, c := b[..|b| - 1], b[|b| - 1];
      assert b == init + [c];
      assert c in b && sep !in init;
      SplitPiece(init, sep);
      SplitSnoc(init, c, sep);
      ExtendSingle(init, c);
    }
  }

  /** Concatenation is associative. */
  lemma ConcatAssoc<T>(a: seq<T>, b: seq<T>, c: seq<T>)
    ensures a + (b + c) == (a + b) + c
  {
  }

  /** The three pieces of a concatenation can be sliced back out. */
  lemma ConcatSlices<T>(a: seq<T>, b: seq<T>, c: seq<T>)
    ensures (a + b + c)[..|a|] == a && (a + b + c)[|a|..|a| + |b|] == b && (a + b + c)[|a| + |b|..] == c
  {
  }

  lemma ExtendSingle(p: string, c: char)
    ensures Extend([p], c) == [p + [c]]
  {
  }

  lemma {:induction false} SplitAfterSeparator(a: string, sep: char, b: string)
    requires sep !in b
    ensures Split(a + [sep] + b, sep) == Split(a, sep) + [b]
    decreases |b|
  {
    var s := a + [sep] + b;
    if b == [] {
      assert s[..|s| - 1] == a;
    } else {
      var b' := b[..|b| - 1];
      assert sep !in b';
      assert s[..|s| - 1] == a + [sep] + b';
      SplitAfterSeparator(a, sep, b');
      assert b' + [b[|b| - 1]] == b;
    }
  }

  /** Appending one character either opens a new piece or extends the last. */
  lemma SplitSnoc(x: string, c: char, sep: char)
    ensures Split(x + [c], sep) == if c == sep then Split(x, sep) + [""] else Extend(Split(x, sep), c)
  {
    assert (x + [c])[..|x|] == x;
  }

  /** Pieces that two texts share in front survive appending a character. */
  lemma SplitSnocShared(x: string, y: string, c: char, sep: char, p: seq<string>)
    requires Split(x, sep) == p + Split(y, sep)
    ensures Split(x + [c], sep) == p + Split(y + [c], sep)
  {
    SplitSnoc(x, c, sep);
    SplitSnoc(y, c, sep);
    if c != sep {
      ExtendShared(p, Split(y, sep), c);
    } else {
      ConcatAssoc(p, Split(y, sep), [""]);
    }
  }

  /** A piece before the first separator is the first piece. */
  lemma {:induction false} SplitBeforeSeparator(a: string, sep: char, t: string)
    requires sep !in a
    ensures Split(a + [sep] + t, sep) == [a] + Split(t, sep)
    decreases |t|
  {
    if t == [] {
      assert a + [sep] + t == a + [sep];
      SplitSnoc(a, sep, sep);
      SplitPiece(a, sep);
    } else {
      var t', c := t[..|t| - 1], t[|t| - 1];
      assert a + [sep] + t == (a + [sep] + t') + [c];
      assert t == t' + [c];
      SplitBeforeSeparator(a, sep, t');
      SplitSnocShared(a + [sep] + t', t', c, sep, [a]);
    }
  }

  /** Splitting joined pieces gives the pieces back, when none holds the
      separator. */
  lemma {:induction false} SplitJoin(parts: seq<string>, sep: char)
    requires parts != []
    requires forall i :: 0 <= i < |parts| ==> sep !in parts[i]
    ensures Split(Join(parts, [sep]), sep) == parts
    decreases |parts|
  {
    if |parts| == 1 {
      SplitPiece(parts[0], sep);
    } else {
      var init := parts[..|parts| - 1];
      SplitJoin(init, sep);
      SplitAfterSeparator(Join(init, [sep]), sep, parts[|parts| - 1]);
      assert init + [parts[|parts| - 1]] == parts;
    }
  }
}
