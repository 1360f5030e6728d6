/**
 * The text that `AbaqusWriter` produces for a planar triangulation: a part header,
 * the node section, the element section, the element set `M_1` and a fixed
 * footer.  Node and element numbers are written 1-based.  How an `f64`
 * coordinate is printed is the parameter `fmt`.
 */
module AbaqusFormat {
  import opened Wrappers
  import opened Decimal
  import opened Text

  datatype Point2 = Point2(x: real, y: real)

  /** A triangle by the 0-based indices of its three nodes, in stored order. */
  datatype Triangle = Triangle(indexA: nat, indexB: nat, indexC: nat)

  datatype Triangulation = Triangulation(nodes: seq<Point2>, elements: seq<Triangle>)

  const Header: string := "*Part, name=PART-1\n"
  const NodeKeyword: string := "*Node\n"
  const ElementKeyword: string := "*Element, type=CPE3\n"
  const ElsetKeyword: string := "*Elset, elset=M_1\n"
  const Footer: string :=
    "*Solid Section, elset=M_1, material=M_1\n1.,\n*End Part\n**\n**\n** ASSEMBLY\n**\n"
    + "*Assembly, name=Assembly\n**\n*Instance, name=PART-1-1, part=PART-1\n*End Instance\n**\n*End Assembly\n"

  /** The line of node `i`, without its newline. */
  function NodeRow(i: nat, p: Point2, fmt: real -> string): string {
    NatToString(i + 1) + ",\t" + fmt(p.x) + ",\t" + fmt(p.y)
  }

  function NodeRows(nodes: seq<Point2>, fmt: real -> string): (r: seq<string>)
    ensures |r| == |nodes|
    ensures forall i :: 0 <= i < |nodes| ==> r[i] == NodeRow(i, nodes[i], fmt)
  {
    seq(|nodes|, i requires 0 <= i < |nodes| => NodeRow(i, nodes[i], fmt))
  }

  function NodeSection(nodes: seq<Point2>, fmt: real -> string): string {
    NodeKeyword + Terminated(NodeRows(nodes, fmt))
  }

  /** The line of element `i`, without its newline. */
  function ElementRow(i: nat, t: Triangle): string {
    NatToString(i + 1) + ",\t" + NatToString(t.indexA + 1) + ",\t" + NatToString(t.indexB + 1)
    + ",\t" + NatToString(t.indexC + 1)
  }

  function ElementRows(elements: seq<Triangle>): (r: seq<string>)
    ensures |r| == |elements|
    ensures forall i :: 0 <= i < |elements| ==> r[i] == ElementRow(i, elements[i])
  {
    seq(|elements|, i requires 0 <= i < |elements| => ElementRow(i, elements[i]))
  }

  function ElementSection(elements: seq<Triangle>): string {
    ElementKeyword + Terminated(ElementRows(elements))
  }

  /** What `write_elset` has written after `n` turns of its loop. */
  function ElsetEntries(n: nat): string
    decreases n
  {
    if n == 0 then ""
    else
      ElsetEntries(n - 1) + ElsetTurn(n - 1)
  }

  /** The text of turn `w` of the element-set loop: its comma, its line break and its number. */
  function ElsetTurn(w: nat): string {
    (if w > 0 then "," else "") + (if w % 10 == 0 && w != 0 then "\n" else "") + NatToString(w + 1)
  }

  function ElsetSection(n: nat): string {
    ElsetKeyword + ElsetEntries(n) + "\n"
  }

  /** The whole file, sections in the order `write` emits them. */
  function Document(tri: Triangulation, fmt: real -> string): string {
    Header + NodeSection(tri.nodes, fmt) + ElementSection(tri.elements) + ElsetSection(|tri.elements|) + Footer
  }

  // ---------------------------------------------------------------------------
  // Reading the output back

  /** A non-empty run of digits, read as a number. */
  function Number(f: string): (r: Option<nat>)
    ensures r.Some? <==> |f| > 0 && forall i :: 0 <= i < |f| ==> IsDigit(f[i])
  {
    if |f| > 0 && forall i :: 0 <= i < |f| ==> IsDigit(f[i]) then Some(ParseNat(f)) else None
  }

  /** A field written after `",\t"`: a tab, then a number. */
  function Tabbed(f: string): Option<nat> {
    if |f| > 0 && f[0] == '\t' then Number(f[1..]) else None
  }

  /** A 1-based number back to the 0-based index it was written for. */
  function ZeroBased(r: Option<nat>): Option<nat> {
    if r.Some? && r.value >= 1 then Some(r.value - 1) else None
  }

  /** The element index and triangle that an element line was written for. */
  function ParseElementRow(row: string): Option<(nat, Triangle)> {
    var fs := Split(row, ',');
    if |fs| != 4 then None
    else
      var i, a, b, c := ZeroBased(Number(fs[0])), ZeroBased(Tabbed(fs[1])), ZeroBased(Tabbed(fs[2])), ZeroBased(Tabbed(fs[3]));
      if i.Some? && a.Some? && b.Some? && c.Some? then Some((i.value, Triangle(a.value, b.value, c.value)))
      else None
  }

  /** The node index and the two coordinate texts of a node line. */
  function ParseNodeRow(row: string): Option<(nat, string, string)> {
    var fs := Split(row, ',');
    if |fs| != 3 then None
    else
      var i := ZeroBased(Number(fs[0]));
      if i.Some? && |fs[1]| > 0 && fs[1][0] == '\t' && |fs[2]| > 0 && fs[2][0] == '\t'
      then Some((i.value, fs[1][1..], fs[2][1..]))
      else None
  }

  /** A printed number reads back as itself. */
  lemma {:induction false} NumberOfNatToString(n: nat)
    ensures Number(NatToString(n)) == Some(n)
    ensures Tabbed("\t" + NatToString(n)) == Some(n)
    ensures '\n' !in NatToString(n) && ',' !in NatToString(n)
  {
    ParseNatToString(n);
    assert ("\t" + NatToString(n))[1..] == NatToString(n);
    assert !IsDigit('\n') && !IsDigit(',');
  }

  /** The separator `",\t"` is a comma followed by a field that starts with a tab. */
  lemma {:induction false} FieldSeparator(x: string, y: string)
    ensures x + ",\t" + y == x + [','] + ("\t" + y)
  {
    assert ",\t" == [','] + "\t";
  }

  /** An element line splits at its commas into the four numbers it was written from. */
  lemma {:induction false} ElementRowFields(i: nat, t: Triangle)
    ensures Split(ElementRow(i, t), ',') ==
      [NatToString(i + 1), "\t" + NatToString(t.indexA + 1), "\t" + NatToString(t.indexB + 1), "\t" + NatToString(t.indexC + 1)]
  {
    var f0, f1, f2, f3 := NatToString(i + 1), "\t" + NatToString(t.indexA + 1),
      "\t" + NatToString(t.indexB + 1), "\t" + NatToString(t.indexC + 1);
    NumberOfNatToString(i + 1);
    NumberOfNatToString(t.indexA + 1);
    NumberOfNatToString(t.indexB + 1);
    NumberOfNatToString(t.indexC + 1);
    FieldSeparator(f0, NatToString(t.indexA + 1));
    FieldSeparator(f0 + [','] + f1, NatToString(t.indexB + 1));
    FieldSeparator(f0 + [','] + f1 + [','] + f2, NatToString(t.indexC + 1));
    SplitFour(f0, f1, f2, f3, ',');
  }

  /** A 1-based number, printed bare or after a tab, reads back as the 0-based index. */
  lemma {:induction false} FieldBack(n: nat)
    ensures ZeroBased(Number(NatToString(n + 1))) == Some(n)
    ensures ZeroBased(Tabbed("\t" + NatToString(n + 1))) == Some(n)
  {
    NumberOfNatToString(n + 1);
  }

  /** Every element line reads back as its 0-based element index and node indices. */
  lemma {:induction false} ParseElementRowInverse(i: nat, t: Triangle)
    ensures ParseElementRow(ElementRow(i, t)) == Some((i, t))
  {
    ElementRowFields(i, t);
    FieldBack(i);
    FieldBack(t.indexA);
    FieldBack(t.indexB);
    FieldBack(t.indexC);
  }

  /** Every node line reads back as its 0-based node index and the two printed coordinates. */
  lemma {:induction false} ParseNodeRowInverse(i: nat, p: Point2, fmt: real -> string)
    requires ',' !in fmt(p.x) && ',' !in fmt(p.y)
    ensures ParseNodeRow(NodeRow(i, p, fmt)) == Some((i, fmt(p.x), fmt(p.y)))
  {
    var f0, f1, f2 := NatToString(i + 1), "\t" + fmt(p.x), "\t" + fmt(p.y);
    NumberOfNatToString(i + 1);
    var parts := [f0, f1, f2];
    JoinThree(f0, f1, f2, ',');
    FieldSeparator(f0, fmt(p.x));
    FieldSeparator(f0 + [','] + f1, fmt(p.y));
    SplitJoin(parts, ',');
    assert f1[1..] == fmt(p.x) && f2[1..] == fmt(p.y);
  }

  /** The node section is the keyword line and then one line per node, in order. */
  lemma {:induction false} NodeSectionLines(nodes: seq<Point2>, fmt: real -> string)
    requires forall r :: '\n' !in fmt(r)
    ensures Split(NodeSection(nodes, fmt), '\n') == ["*Node"] + NodeRows(nodes, fmt) + [""]
  {
    var rows := ["*Node"] + NodeRows(nodes, fmt);
    TerminatedConcat(["*Node"], NodeRows(nodes, fmt));
    TerminatedSingle("*Node");
    assert "*Node" + "\n" == NodeKeyword;
    forall i | 0 <= i < |rows| ensures '\n' !in rows[i] {
      if i > 0 {
        NumberOfNatToString(i);
        assert rows[i] == NodeRow(i - 1, nodes[i - 1], fmt);
        assert '\n' !in fmt(nodes[i - 1].x) && '\n' !in fmt(nodes[i - 1].y);
      }
    }
    SplitTerminated(rows);
  }

  /** An element line holds no line break. */
  lemma {:induction false} ElementRowSingleLine(i: nat, t: Triangle)
    ensures '\n' !in ElementRow(i, t)
  {
    NumberOfNatToString(i + 1);
    NumberOfNatToString(t.indexA + 1);
    NumberOfNatToString(t.indexB + 1);
    NumberOfNatToString(t.indexC + 1);
  }

  /** The element section is the keyword line and then one line per element, in order. */
  lemma {:induction false} ElementSectionLines(elements: seq<Triangle>)
    ensures Split(ElementSection(elements), '\n') == ["*Element, type=CPE3"] + ElementRows(elements) + [""]
  {
    var rows := ["*Element, type=CPE3"] + ElementRows(elements);
    TerminatedConcat(["*Element, type=CPE3"], ElementRows(elements));
    TerminatedSingle("*Element, type=CPE3");
    assert "*Element, type=CPE3" + "\n" == ElementKeyword;
    forall i | 0 <= i < |rows| ensures '\n' !in rows[i] {
      if i > 0 {
        assert rows[i] == ElementRow(i - 1, elements[i - 1]);
        ElementRowSingleLine(i - 1, elements[i - 1]);
      }
    }
    SplitTerminated(rows);
  }

  /** Entry `w` of the element set: the number `w + 1`, on a new line when `w` is a positive multiple of 10. */
  function ElsetPiece(w: nat): string {
    (if w % 10 == 0 && w != 0 then "\n" else "") + NatToString(w + 1)
  }

  function ElsetPieces(n: nat): (r: seq<string>)
    ensures |r| == n
    ensures forall w :: 0 <= w < n ==> r[w] == ElsetPiece(w)
  {
    seq(n, w requires w >= 0 => ElsetPiece(w))
  }

  /** Turn `w` of the element-set loop is entry `w`, after a comma unless it is the first. */
  lemma {:induction false} ElsetTurnPiece(w: nat)
    ensures w == 0 ==> ElsetTurn(w) == ElsetPiece(w)
    ensures w > 0 ==> ElsetTurn(w) == [','] + ElsetPiece(w)
  {
    var brk := if w % 10 == 0 && w != 0 then "\n" else "";
    assert ElsetPiece(w) == brk + NatToString(w + 1);
    if w == 0 {
      assert ElsetTurn(w) == "" + brk + NatToString(w + 1);
    } else {
      assert ElsetTurn(w) == "," + brk + NatToString(w + 1);
    }
  }

  /** The element set lists the entries `1, ..., n` separated by commas, in order. */
  lemma {:induction false} ElsetEntriesJoin(n: nat)
    ensures ElsetEntries(n) == Join(ElsetPieces(n), ',')
    decreases n
  {
    if n == 0 {
      assert ElsetPieces(0) == [];
      return;
    }
    ElsetTurnPiece(n - 1);
    if n == 1 {
      assert ElsetPieces(1) == [ElsetPiece(0)];
      assert ElsetEntries(1) == "" + ElsetTurn(0);
    } else {
      ElsetEntriesJoin(n - 1);
      assert ElsetPieces(n) == ElsetPieces(n - 1) + [ElsetPiece(n - 1)];
      JoinAppend(ElsetPieces(n - 1), ElsetPiece(n - 1), ',');
    }
  }

  /** Split at its commas, the element set gives back its entries, in order. */
  lemma {:induction false} ElsetEntriesSplit(n: nat)
    requires n >= 1
    ensures Split(ElsetEntries(n), ',') == ElsetPieces(n)
  {
    ElsetEntriesJoin(n);
    forall w | 0 <= w < n ensures ',' !in ElsetPieces(n)[w] {
      NumberOfNatToString(w + 1);
    }
    SplitJoin(ElsetPieces(n), ',');
  }

  /** Each entry of the element set reads back as its 1-based element number. */
  lemma {:induction false} ElsetPieceNumber(w: nat)
    ensures Number(if w % 10 == 0 && w != 0 then ElsetPiece(w)[1..] else ElsetPiece(w)) == Some(w + 1)
  {
    var digits := NatToString(w + 1);
    NumberOfNatToString(w + 1);
    if w % 10 == 0 && w != 0 {
      assert ElsetPiece(w) == "\n" + digits;
      assert ("\n" + digits)[1..] == digits;
    } else {
      assert ElsetPiece(w) == "" + digits;
      assert "" + digits == digits;
    }
  }

  /** Turn `w` breaks the line exactly when `w` is a positive multiple of 10. */
  lemma {:induction false} ElsetTurnNewlines(w: nat)
    ensures Count(ElsetTurn(w), '\n') == if w % 10 == 0 && w != 0 then 1 else 0
  {
    var sep := (if w > 0 then "," else "");
    var brk := (if w % 10 == 0 && w != 0 then "\n" else "");
    NumberOfNatToString(w + 1);
    CountAbsent(NatToString(w + 1), '\n');
    CountAbsent(sep, '\n');
    CountAppend(sep, brk, '\n');
    CountAppend(sep + brk, NatToString(w + 1), '\n');
    if brk == "\n" {
      assert Count(brk, '\n') == 1 by {
        assert brk[..0] == [];
      }
    } else {
      CountAbsent(brk, '\n');
    }
  }

  lemma {:induction false} TenthsStep(w: nat)
    requires w >= 1
    ensures (w - 1) / 10 + (if w % 10 == 0 then 1 else 0) == w / 10
  {
  }

  /** The element set breaks its line once per ten entries: `n` entries take `(n - 1) / 10` breaks. */
  lemma {:induction false} ElsetNewlines(n: nat)
    ensures Count(ElsetEntries(n), '\n') == if n == 0 then 0 else (n - 1) / 10
    decreases n
  {
    if n > 0 {
      var w := n - 1;
      ElsetNewlines(w);
      ElsetTurnNewlines(w);
      CountAppend(ElsetEntries(w), ElsetTurn(w), '\n');
      if w > 0 {
        TenthsStep(w);
      }
    }
  }

  /** With no elements the element set is its keyword line and an empty line. */
  lemma {:induction false} EmptyElset()
    ensures ElsetSection(0) == "*Elset, elset=M_1\n\n"
  {
  }
}
