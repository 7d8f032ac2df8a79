/** Row-major storage: a grid of equally wide rows as one sequence. */
module Grid {

  ghost predicate Rectangular<T>(rows: seq<seq<T>>, width: nat) {
    forall y :: 0 <= y < |rows| ==> |rows[y]| == width
  }

  ghost function Flatten<T>(rows: seq<seq<T>>): seq<T> {
    if rows == [] then [] else rows[0] + Flatten(rows[1..])
  }

  lemma {:induction false} OneMore(n: nat, width: nat)
    requires n > 0
    ensures n * width == width + (n - 1) * width
  {
  }

  lemma {:induction false} FlattenLength<T>(rows: seq<seq<T>>, width: nat)
    requires Rectangular(rows, width)
    ensures |Flatten(rows)| == |rows| * width
  {
    if rows != [] {
      FlattenLength(rows[1..], width);
      OneMore(|rows|, width);
    }
  }

  lemma {:induction false} FlattenConcat<T>(a: seq<seq<T>>, b: seq<seq<T>>)
    ensures Flatten(a + b) == Flatten(a) + Flatten(b)
  {
    if a == [] {
      assert a + b == b;
    } else {
      assert (a + b)[1..] == a[1..] + b;
      FlattenConcat(a[1..], b);
    }
  }

  /** Where row `y` stands, whatever the widths. */
  lemma {:induction false} Stretch<T>(rows: seq<seq<T>>, y: nat)
    requires y < |rows|
    ensures Flatten(rows) == Flatten(rows[..y]) + rows[y] + Flatten(rows[y + 1..])
    ensures var start := |Flatten(rows[..y])|;
      start + |rows[y]| <= |Flatten(rows)| && Flatten(rows)[start..start + |rows[y]|] == rows[y]
  {
    var front, rest := rows[..y], rows[y..];
    assert rows == front + rest && rest[1..] == rows[y + 1..];
    FlattenConcat(front, rest);
    assert Flatten(rest) == rows[y] + Flatten(rows[y + 1..]);
  }

  /** Where row `y` starts, given the width. */
  lemma {:induction false} StretchAt<T>(rows: seq<seq<T>>, width: nat, y: nat, start: nat)
    requires Rectangular(rows, width) && y < |rows| && start == y * width
    ensures |Flatten(rows[..y])| == start
  {
    hide Flatten;
    FlattenLength(rows[..y], width);
  }

  lemma {:induction false} FlattenRow<T>(rows: seq<seq<T>>, width: nat, y: nat)
    requires Rectangular(rows, width) && y < |rows|
    ensures y * width + width <= |rows| * width == |Flatten(rows)|
    ensures Flatten(rows)[y * width..y * width + width] == rows[y]
    ensures Flatten(rows) == Flatten(rows[..y]) + rows[y] + Flatten(rows[y + 1..])
    ensures |Flatten(rows[..y])| == y * width
  {
    hide Flatten;
    FlattenLength(rows, width);
    StretchAt(rows, width, y, y * width);
    Stretch(rows, y);
  }

  lemma {:induction false} FlattenAt<T>(rows: seq<seq<T>>, width: nat, y: nat, x: nat)
    requires Rectangular(rows, width) && y < |rows| && x < width
    ensures y * width + x < |rows| * width == |Flatten(rows)|
    ensures Flatten(rows)[y * width + x] == rows[y][x]
  {
    FlattenRow(rows, width, y);
    assert Flatten(rows)[y * width..y * width + width][x] == rows[y][x];
  }

  /** Replacing a row replaces its stretch. */
  lemma {:induction false} UpdateStretch<T>(rows: seq<seq<T>>, y: nat, row: seq<T>)
    requires y < |rows| && |row| == |rows[y]|
    ensures var start := |Flatten(rows[..y])|;
      && start + |row| <= |Flatten(rows)|
      && Flatten(rows[y := row]) == Flatten(rows)[..start] + row + Flatten(rows)[start + |row|..]
  {
    hide Flatten;
    Stretch(rows, y);
    Stretch(rows[y := row], y);
    assert rows[y := row][..y] == rows[..y] && rows[y := row][y + 1..] == rows[y + 1..];
  }
}
