/** The values a search match, a host entry or an exploit entry holds, the
    exceptions the pipeline can raise, and Python's str() and `<` on those
    values. */
module Values {
  import opened Wrappers
  import opened Decimal

  /** A field value. Null is Python's None; Other stands for a value of any
      further type (float, list, dict, ...) and carries the text str() gives it. */
  datatype Value = Null | Int(i: int) | Str(s: string) | Other(shown: string)

  /** A search match or an exploit entry: a dictionary from field name to value. */
  type Record = map<string, Value>

  /** The exceptions that end a run. */
  datatype Error =
    | KeyError(key: string)     // a dictionary lookup of a missing key
    | AttributeError            // a str or dict method called on a value of another type
    | TypeError                 // `<` on values Python cannot order; strptime on a non-string
    | ValueError(text: string)  // int() or strptime() given malformed text
    | IndexError                // the upper bound of an ip range that has none
    | LookupFailed(ip: Value)   // the remote host or exploit lookup for this address raised

  type Checked<T> = Result<T, Error>

  /** An optional argument the program acts on: `if option:` is false for
      None and for the empty string. */
  predicate Given(option: Option<string>) {
    option.Some? && option.value != ""
  }

  /** Python's str(v). */
  function Show(v: Value): string {
    match v
    case Null => "None"
    case Int(i) => ShowInt(i)
    case Str(s) => s
    case Other(t) => t
  }

  /** Python's `<` on two strings: code point by code point, a proper prefix first. */
  predicate StrLess(a: string, b: string) {
    if a == [] then b != []
    else if b == [] then false
    else a[0] < b[0] || (a[0] == b[0] && StrLess(a[1..], b[1..]))
  }

  lemma {:induction false} StrLessIrreflexive(a: string)
    ensures !StrLess(a, a)
  {
    if a != [] {
      StrLessIrreflexive(a[1..]);
    }
  }

  lemma {:induction false} StrLessTransitive(a: string, b: string, c: string)
    requires StrLess(a, b) && StrLess(b, c)
    ensures StrLess(a, c)
  {
    if a != [] && b != [] && c != [] && a[0] == b[0] == c[0] {
      StrLessTransitive(a[1..], b[1..], c[1..]);
    }
  }

  lemma {:induction false} StrLessTotal(a: string, b: string)
    requires a != b
    ensures StrLess(a, b) || StrLess(b, a)
  {
    if a != [] && b != [] && a[0] == b[0] {
      assert a == [a[0]] + a[1..] && b == [b[0]] + b[1..];
      StrLessTotal(a[1..], b[1..]);
    }
  }

  /** Python's `a < b`: defined between two ints and between two strings;
      any other pair of operand types raises TypeError. */
  function PyLess(a: Value, b: Value): Checked<bool> {
    if a.Int? && b.Int? then Ok(a.i < b.i)
    else if a.Str? && b.Str? then Ok(StrLess(a.s, b.s))
    else Err(TypeError)
  }

  function Rank(v: Value): nat {
    match v
    case Null => 0
    case Int(_) => 1
    case Str(_) => 2
    case Other(_) => 3
  }

  /** A strict total order on all values that agrees with Python's `<`
      wherever that is defined; the sort is written against it. */
  predicate KeyLess(a: Value, b: Value) {
    if Rank(a) != Rank(b) then Rank(a) < Rank(b)
    else match a
      case Null => false
      case Int(x) => x < b.i
      case Str(x) => StrLess(x, b.s)
      case Other(x) => StrLess(x, b.shown)
  }

  lemma KeyLessAgrees(a: Value, b: Value)
    requires PyLess(a, b).Ok?
    ensures PyLess(a, b) == Ok(KeyLess(a, b))
  {
  }

  lemma KeyLessIrreflexive(a: Value)
    ensures !KeyLess(a, a)
  {
    match a
    case Str(x) => StrLessIrreflexive(x);
    case Other(x) => StrLessIrreflexive(x);
    case _ =>
  }

  lemma KeyLessTransitive(a: Value, b: Value, c: Value)
    requires KeyLess(a, b) && KeyLess(b, c)
    ensures KeyLess(a, c)
  {
    if Rank(a) == Rank(b) == Rank(c) {
      match a
      case Str(x) => StrLessTransitive(x, b.s, c.s);
      case Other(x) => StrLessTransitive(x, b.shown, c.shown);
      case _ =>
    }
  }

  lemma KeyLessTotal(a: Value, b: Value)
    requires a != b
    ensures KeyLess(a, b) || KeyLess(b, a)
  {
    if Rank(a) == Rank(b) {
      match a
      case Str(x) => StrLessTotal(x, b.s);
      case Other(x) => StrLessTotal(x, b.shown);
      case _ =>
    }
  }

  lemma KeyLessAsymmetric(a: Value, b: Value)
    requires KeyLess(a, b)
    ensures !KeyLess(b, a)
  {
    if KeyLess(b, a) {
      KeyLessTransitive(a, b, a);
      KeyLessIrreflexive(a);
    }
  }
}
