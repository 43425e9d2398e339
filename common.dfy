/** Shared vocabulary: optional values, the failures the application raises,
    the value domain of the relational store, and the string helpers
    (joining, splitting, ASCII case conversion) the statement builders use. */
module Common {

  datatype Option<T> = None | Some(value: T)

  /** Why the relational engine rejects a statement (a `SQLException`). */
  datatype SqlState =
    | UndefinedTable               // the statement names a table that does not exist
    | UndefinedColumn(col: string) // a looked-up column is not in the result row
    | SyntaxError                  // the statement text is malformed
    | OutOfRange                   // an INTEGER result does not fit in 32 bits
    | WrongType                    // a stored value does not have the type read
    | UnboundParameter             // a placeholder has no bound value
    | UndefinedFunction            // a trigger names a function that does not exist
    | DuplicateObject              // a trigger of that name already exists on the table
    | IdentityColumn               // an UPDATE assigns the generated identity column
    | GuardRejected                // an immutability guard raised "<column> is immutable"

  /** The exceptions of the application, as error values. */
  datatype Error =
    | MissingTable(className: string)         // RuntimeException: the type has no @Table
    | MissingPrimaryKey(className: string)    // RuntimeException: no column has primaryKey = true
    | SqlError(state: SqlState)                // SQLException
    | NullConnection                          // NullPointerException: the connection is null
    | NoDefaultConstructor(className: string) // NoSuchMethodException from getDeclaredConstructor()
    | UnsupportedOperation                    // UnsupportedOperationException
    | NotEnoughStock                          // IllegalStateException("Not enough stock available!")
    | InvalidEmail                            // InvalidEmailException
    | IllegalArgument                         // plain IllegalArgumentException
    | Wrapped(cause: Error)                   // new RuntimeException(cause)

  datatype Result<T> = Ok(value: T) | Err(error: Error)

  /** The outcome of an operation that returns nothing (`void`) or throws. */
  datatype Outcome = Pass | Fail(error: Error)

  /** A value stored in a column or held in a field. Doubles and timestamps
      are opaque tokens (their bit pattern, their epoch milliseconds) that are
      only ever copied and compared for equality. */
  datatype Value =
    | Null
    | Int(i: int)
    | Text(s: string)
    | Double(bits: int)
    | Timestamp(millis: int)

  /** `String.join(sep, parts)` and `Collectors.joining(sep)`. */
  function Join(parts: seq<string>, sep: string): string
  {
    if |parts| == 0 then ""
    else if |parts| == 1 then parts[0]
    else parts[0] + sep + Join(parts[1..], sep)
  }

  /** Splits `s` at every occurrence of `c`, keeping every (possibly empty)
      segment: the reference definition the Java split is stated against. */
  function Split(s: string, c: char): (r: seq<string>)
    ensures |r| > 0
  {
    if |s| == 0 then [""]
    else
      var rest := Split(s[1..], c);
      if s[0] == c then [""] + rest else [[s[0]] + rest[0]] + rest[1..]
  }

  lemma {:induction false} SplitWithout(p: string, c: char)
    requires c !in p
    ensures Split(p, c) == [p]
  {
    if |p| > 0 {
      SplitWithout(p[1..], c);
      assert [p[0]] + p[1..] == p;
    }
  }

  lemma {:induction false} SplitAfterSegment(p: string, c: char, t: string)
    requires c !in p
    ensures Split(p + [c] + t, c) == [p] + Split(t, c)
  {
    var s := p + [c] + t;
    if |p| == 0 {
      assert s[1..] == t;
    } else {
      assert s[1..] == p[1..] + [c] + t;
      SplitAfterSegment(p[1..], c, t);
      assert [p[0]] + p[1..] == p;
    }
  }

  /** A separator between two strings splits them apart: the segments of the
      whole are those of the left part followed by those of the right. */
  lemma {:induction false} SplitConcat(a: string, c: char, b: string)
    ensures Split(a + [c] + b, c) == Split(a, c) + Split(b, c)
  {
    var s := a + [c] + b;
    if |a| == 0 {
      assert s[1..] == b;
    } else {
      assert s[1..] == a[1..] + [c] + b;
      SplitConcat(a[1..], c, b);
    }
  }

  /** Splitting a joined list of separator-free parts gives the parts back. */
  lemma {:induction false} SplitJoin(parts: seq<string>, c: char)
    requires |parts| > 0
    requires forall k :: 0 <= k < |parts| ==> c !in parts[k]
    ensures Split(Join(parts, [c]), c) == parts
  {
    if |parts| == 1 {
      SplitWithout(parts[0], c);
    } else {
      SplitJoin(parts[1..], c);
      SplitAfterSegment(parts[0], c, Join(parts[1..], [c]));
    }
  }

  /** Every part and every separator of a join occurs in it: a character
      present in no part and in no separator is absent from the join. */
  lemma {:induction false} JoinAvoids(parts: seq<string>, sep: string, c: char)
    requires c !in sep
    requires forall k :: 0 <= k < |parts| ==> c !in parts[k]
    ensures c !in Join(parts, sep)
  {
    if |parts| > 1 {
      JoinAvoids(parts[1..], sep, c);
    }
  }

  /** The length of a join: the lengths of the parts plus one separator
      between each two neighbours. */
  lemma {:induction false} JoinLength(parts: seq<string>, sep: string)
    requires |parts| > 0
    ensures |Join(parts, sep)| == SumLengths(parts) + (|parts| - 1) * |sep|
  {
    if |parts| > 1 {
      JoinLength(parts[1..], sep);
    }
  }

  function SumLengths(parts: seq<string>): nat
  {
    if |parts| == 0 then 0 else |parts[0]| + SumLengths(parts[1..])
  }

  /** The two halves of a concatenation are its slices. */
  lemma ConcatSlices(a: string, b: string)
    ensures (a + b)[..|a|] == a && (a + b)[|a|..] == b
  {
  }

  lemma MulMono(a: nat, b: nat, c: nat)
    requires a <= b
    ensures a * c <= b * c
  {
  }

  /** `n` copies of `s`. */
  function Repeat(s: string, n: nat): (r: seq<string>)
    ensures |r| == n
    ensures forall k :: 0 <= k < n ==> r[k] == s
  {
    if n == 0 then [] else [s] + Repeat(s, n - 1)
  }

  predicate IsAsciiUpper(ch: char) { 'A' <= ch <= 'Z' }
  predicate IsAsciiLower(ch: char) { 'a' <= ch <= 'z' }
  predicate IsAsciiLetter(ch: char) { IsAsciiUpper(ch) || IsAsciiLower(ch) }
  predicate IsAsciiDigit(ch: char) { '0' <= ch <= '9' }

  function ToLowerChar(ch: char): (r: char)
    ensures IsAsciiUpper(ch) ==> IsAsciiLower(r)
    ensures !IsAsciiUpper(ch) ==> r == ch
  {
    if IsAsciiUpper(ch) then (ch as int + 32) as char else ch
  }

  function ToUpperChar(ch: char): (r: char)
    ensures IsAsciiLower(ch) ==> IsAsciiUpper(r)
    ensures !IsAsciiLower(ch) ==> r == ch
  {
    if IsAsciiLower(ch) then (ch as int - 32) as char else ch
  }

  /** `String.toLowerCase()` restricted to ASCII letters. */
  function ToLower(s: string): (r: string)
    ensures |r| == |s|
    ensures forall k :: 0 <= k < |s| ==> r[k] == ToLowerChar(s[k])
  {
    seq(|s|, k requires 0 <= k < |s| => ToLowerChar(s[k]))
  }

  /** `String.toUpperCase()` restricted to ASCII letters. */
  function ToUpper(s: string): (r: string)
    ensures |r| == |s|
    ensures forall k :: 0 <= k < |s| ==> r[k] == ToUpperChar(s[k])
  {
    seq(|s|, k requires 0 <= k < |s| => ToUpperChar(s[k]))
  }

  function Reversed<T>(s: seq<T>): (r: seq<T>)
    ensures |r| == |s|
    ensures forall k :: 0 <= k < |s| ==> r[k] == s[|s| - 1 - k]
  {
    if s == [] then [] else Reversed(s[1..]) + [s[0]]
  }

  /** The keys of `m` in `[lo, hi)`, in ascending order. */
  function KeysBetween<V>(m: map<int, V>, lo: int, hi: int): (r: seq<int>)
    ensures forall k :: 0 <= k < |r| ==> r[k] in m && lo <= r[k] < hi
    ensures forall x :: x in m && lo <= x < hi ==> x in r
    ensures forall i, j :: 0 <= i < j < |r| ==> r[i] < r[j]
    decreases hi - lo
  {
    if lo >= hi then []
    else
      var rest := KeysBetween(m, lo + 1, hi);
      if lo in m then KeysFrom(lo, rest) else rest
  }

  /** `lo` put before keys that all lie above it. */
  function KeysFrom(lo: int, rest: seq<int>): (r: seq<int>)
    requires forall k :: 0 <= k < |rest| ==> lo < rest[k]
    requires forall i, j :: 0 <= i < j < |rest| ==> rest[i] < rest[j]
    ensures |r| == |rest| + 1 && r[0] == lo
    ensures forall k :: 0 < k < |r| ==> r[k] == rest[k - 1]
    ensures forall x :: x in r <==> x == lo || x in rest
    ensures forall i, j :: 0 <= i < j < |r| ==> r[i] < r[j]
  {
    [lo] + rest
  }
}
