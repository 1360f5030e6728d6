/**
 * The input of the writer's unit test, a unit square made of two triangles, and
 * the exact text that the model writes for it.
 */
module AbaqusExample {
  import opened Decimal
  import opened Text
  import opened AbaqusFormat

  /** The unit square split into two triangles, as the writer's unit test builds it. */
  function Square(): Triangulation {
    Triangulation([Point2(0.0, 0.0), Point2(1.0, 0.0), Point2(1.0, 1.0), Point2(0.0, 1.0)],
                  [Triangle(0, 2, 1), Triangle(0, 3, 2)])
  }

  lemma {:induction false} SmallNumbers()
    ensures NatToString(1) == "1" && NatToString(2) == "2" && NatToString(3) == "3" && NatToString(4) == "4"
  {
    assert DigitChar(1) == '1' && DigitChar(2) == '2' && DigitChar(3) == '3' && DigitChar(4) == '4';
  }

  lemma {:induction false} SquareNodeRows(fmt: real -> string)
    requires fmt(0.0) == "0" && fmt(1.0) == "1"
    ensures NodeRows(Square().nodes, fmt) == ["1,\t0,\t0", "2,\t1,\t0", "3,\t1,\t1", "4,\t0,\t1"]
  {
    SmallNumbers();
    var ns := Square().nodes;
    var rows := NodeRows(ns, fmt);
    assert rows[0] == "1,\t0,\t0" by { assert rows[0] == NodeRow(0, ns[0], fmt); }
    assert rows[1] == "2,\t1,\t0" by { assert rows[1] == NodeRow(1, ns[1], fmt); }
    assert rows[2] == "3,\t1,\t1" by { assert rows[2] == NodeRow(2, ns[2], fmt); }
    assert rows[3] == "4,\t0,\t1" by { assert rows[3] == NodeRow(3, ns[3], fmt); }
  }

  lemma {:induction false} SquareFirstElementRow()
    ensures ElementRow(0, Square().elements[0]) == "1,\t1,\t3,\t2"
  {
    SmallNumbers();
  }

  lemma {:induction false} SquareSecondElementRow()
    ensures ElementRow(1, Square().elements[1]) == "2,\t1,\t4,\t3"
  {
    SmallNumbers();
  }

  lemma {:induction false} SquareElementRows()
    ensures ElementRows(Square().elements) == ["1,\t1,\t3,\t2", "2,\t1,\t4,\t3"]
  {
    SquareFirstElementRow();
    SquareSecondElementRow();
  }

  lemma {:induction false} SquareElset()
    ensures ElsetEntries(2) == "1,2"
  {
    SmallNumbers();
    assert ElsetEntries(0) == "";
    assert ElsetEntries(1) == NatToString(1);
    assert ElsetEntries(2) == NatToString(1) + "," + NatToString(2);
  }

  lemma {:induction false} SquareDocument(fmt: real -> string)
    requires fmt(0.0) == "0" && fmt(1.0) == "1"
    ensures Document(Square(), fmt) ==
      Header
      + NodeKeyword + Terminated(["1,\t0,\t0", "2,\t1,\t0", "3,\t1,\t1", "4,\t0,\t1"])
      + ElementKeyword + Terminated(["1,\t1,\t3,\t2", "2,\t1,\t4,\t3"])
      + ElsetKeyword + Terminated(["1,2"])
      + Footer
  {
    SquareNodeRows(fmt);
    SquareElementRows();
    SquareElset();
    TerminatedSingle("1,2");
    assert ElsetSection(2) == ElsetKeyword + Terminated(["1,2"]);
  }
}
