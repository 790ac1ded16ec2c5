/**
 * Small shared vocabulary: an Option type, sequence predicates used to
 * describe the unspecified iteration order of hash tables, the decimal
 * rendering of integers used by `format!`, and Rust's `str::lines`.
 */
module Common {

  datatype Option<+T> = None | Some(value: T)

  /** No element occurs twice. */
  predicate Distinct<T(==)>(s: seq<T>) {
    forall i, j | 0 <= i < j < |s| :: s[i] != s[j]
  }

  /**
   * `s` lists every element of `keys` exactly once, in some order: what a
   * Rust `HashMap` key iterator yields.
   */
  ghost predicate IsEnumeration<T(!new)>(s: seq<T>, keys: set<T>) {
    Distinct(s) && (forall x :: x in s <==> x in keys)
  }

  /** Dropping the last element keeps a list duplicate-free, and the last element is not in the rest. */
  lemma DistinctPrefix<T>(s: seq<T>)
    requires Distinct(s) && |s| > 0
    ensures Distinct(s[..|s| - 1])
    ensures s[|s| - 1] !in s[..|s| - 1]
  {
  }

  /** A member of a non-empty list is in all but its last element, or is the last element. */
  lemma MemberOfSnoc<T>(s: seq<T>, x: T)
    requires |s| > 0
    ensures x in s <==> x in s[..|s| - 1] || x == s[|s| - 1]
  {
    assert s == s[..|s| - 1] + [s[|s| - 1]];
  }

  /** Taking away two multisets one after the other is taking away their sum. */
  lemma SubtractTwice<T>(a: multiset<T>, b: multiset<T>, c: multiset<T>)
    ensures (a - b) - c == a - (b + c)
  {
  }

  /** The index of the last occurrence of `v` in `s`, if any. */
  function LastIndexOf<T(==)>(s: seq<T>, v: T): (r: Option<nat>)
    ensures r.None? <==> forall i | 0 <= i < |s| :: s[i] != v
    ensures r.Some? ==> r.value < |s| && s[r.value] == v && forall i | r.value < i < |s| :: s[i] != v
    decreases |s|
  {
    if s == [] then None
    else if s[|s| - 1] == v then Some(|s| - 1)
    else
      var r := LastIndexOf(s[..|s| - 1], v);
      assert forall i | 0 <= i < |s| - 1 :: s[..|s| - 1][i] == s[i];
      r
  }

  /** A non-empty list has its first element as a member. */
  lemma EmptyOrHasFirst<T>(s: seq<T>)
    ensures s == [] || s[0] in s
  {
  }

  /** A non-empty set of integers has a member to pick. */
  lemma NonEmptyHasMember(s: set<int>)
    requires s != {}
    ensures exists y :: y in s
  {
    if forall y :: y !in s {
      assert false;
    }
  }

  function DigitChar(d: int): char
    requires 0 <= d < 10
  {
    (48 + d) as char
  }

  /** Decimal digits of a natural number, most significant first. */
  function NatToString(n: nat): (r: string)
    ensures |r| >= 1
    ensures forall i | 0 <= i < |r| :: '0' <= r[i] <= '9'
    decreases n
  {
    if n < 10 then [DigitChar(n)] else NatToString(n / 10) + [DigitChar(n % 10)]
  }

  /** What `format!("{}", i)` prints for an integer. */
  function IntToString(i: int): (r: string)
    ensures |r| >= 1
    ensures (r[0] == '-') <==> i < 0
  {
    if i < 0 then "-" + NatToString(-i) else NatToString(i)
  }

  /** The pieces of `s` between '\n' characters (always at least one). */
  function Pieces(s: string): (r: seq<string>)
    ensures |r| >= 1
    ensures forall i | 0 <= i < |r| :: '\n' !in r[i]
  {
    if s == [] then [""]
    else
      var rest := Pieces(s[1..]);
      if s[0] == '\n' then [""] + rest else [[s[0]] + rest[0]] + rest[1..]
  }

  function StripCarriageReturn(line: string): string {
    if |line| > 0 && line[|line| - 1] == '\r' then line[..|line| - 1] else line
  }

  /**
   * Rust's `str::lines`: the pieces between '\n', without a trailing empty
   * piece, each with one trailing '\r' removed.
   */
  function Lines(s: string): (r: seq<string>)
    ensures s == [] ==> r == []
  {
    var p := Pieces(s);
    var q := if p[|p| - 1] == "" then p[..|p| - 1] else p;
    seq(|q|, i requires 0 <= i < |q| => StripCarriageReturn(q[i]))
  }

  /** A text without a newline is a single piece. */
  lemma {:induction false} PiecesOfLine(p: string)
    requires '\n' !in p
    ensures Pieces(p) == [p]
  {
    if p != [] {
      PiecesOfLine(p[1..]);
      assert [p[0]] + p[1..] == p;
    }
  }

  /** A line ended by a newline is the first piece, the rest of the text giving the others. */
  lemma {:induction false} PiecesAfterLine(p: string, rest: string)
    requires '\n' !in p
    ensures Pieces(p + "\n" + rest) == [p] + Pieces(rest)
  {
    if p == [] {
      assert p + "\n" + rest == "\n" + rest;
      assert ("\n" + rest)[1..] == rest;
    } else {
      PiecesAfterLine(p[1..], rest);
      assert (p + "\n" + rest)[1..] == p[1..] + "\n" + rest;
      assert [p[0]] + p[1..] == p;
    }
  }

  /** The first piece is the text up to the first newline, or all of it when there is none. */
  lemma {:induction false} FirstPiece(s: string)
    ensures |Pieces(s)[0]| <= |s| && s[..|Pieces(s)[0]|] == Pieces(s)[0]
    ensures |Pieces(s)[0]| == |s| || s[|Pieces(s)[0]|] == '\n'
  {
    if s != [] {
      FirstPiece(s[1..]);
      var rest := Pieces(s[1..]);
      if s[0] != '\n' {
        assert Pieces(s)[0] == [s[0]] + rest[0];
        assert s[..|rest[0]| + 1] == [s[0]] + s[1..][..|rest[0]|];
      }
    }
  }

  /** A non-empty text has at least one line. */
  lemma LinesOfNonEmpty(s: string)
    requires s != []
    ensures Lines(s) != []
    ensures Lines(s)[0] == StripCarriageReturn(Pieces(s)[0])
  {
    var rest := Pieces(s[1..]);
    if s[0] == '\n' {
      assert |Pieces(s)| >= 2;
    } else {
      assert Pieces(s)[0] == [s[0]] + rest[0];
      assert Pieces(s)[0] != "";
    }
  }

  /** The rows of a grid, one after the other. */
  function Flatten<T>(rows: seq<seq<T>>): (r: seq<T>)
    ensures rows == [] ==> r == []
  {
    if rows == [] then [] else rows[0] + Flatten(rows[1..])
  }

  /** Every row of the grid has `width` entries. */
  predicate Rectangular<T>(rows: seq<seq<T>>, width: nat) {
    forall j | 0 <= j < |rows| :: |rows[j]| == width
  }

  /** A rectangular grid of `h` rows flattens to h * width entries. */
  lemma {:induction false} FlattenLength<T>(rows: seq<seq<T>>, width: nat)
    requires Rectangular(rows, width)
    ensures |Flatten(rows)| == |rows| * width
  {
    if rows != [] {
      FlattenLength(rows[1..], width);
      assert |rows| * width == width + (|rows| - 1) * width;
    }
  }

  /** Row j, column c of a rectangular grid is entry j * width + c of the flattened grid. */
  lemma {:induction false} FlattenAt<T>(rows: seq<seq<T>>, width: nat, j: nat, c: nat)
    requires Rectangular(rows, width) && j < |rows| && c < width
    ensures j * width + c < |Flatten(rows)| && Flatten(rows)[j * width + c] == rows[j][c]
  {
    FlattenLength(rows, width);
    if j > 0 {
      FlattenAt(rows[1..], width, j - 1, c);
      assert j * width + c == width + ((j - 1) * width + c);
    }
  }

  /** Reading row y whole onto the end of `read` leaves the rows after it to read. */
  lemma ReadRow<T>(read: seq<T>, rows: seq<seq<T>>, y: nat)
    requires y < |rows|
    ensures (read + rows[y]) + Flatten(rows[y + 1..]) == read + Flatten(rows[y..])
  {
    assert rows[y..][1..] == rows[y + 1..];
  }
}
