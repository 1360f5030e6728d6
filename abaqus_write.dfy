/**
 * The Abaqus writer: an object that appends the sections of the file to its
 * `writer` buffer one after another.  The buffer is a string; what the underlying
 * `Write` does with the bytes is not part of this model.
 */
module AbaqusWrite {
  import opened Text
  import opened Decimal
  import opened AbaqusFormat

  class AbaqusWriter {
    var writer: string
    const triangulation: Triangulation
    const formatFloat: real -> string

    constructor (buf: string, triangulation: Triangulation, formatFloat: real -> string)
      ensures writer == buf
      ensures this.triangulation == triangulation && this.formatFloat == formatFloat
    {
      writer := buf;
      this.triangulation := triangulation;
      this.formatFloat := formatFloat;
    }

    /** `write`: the five sections, in order. */
    method Write()
      modifies this
      ensures writer == old(writer) + Document(triangulation, formatFloat)
    {
      ghost var w0 := writer;
      WriteHeader();
      WriteNodes();
      WriteElements();
      WriteElset();
      WriteFooter();
      AppendSections(w0, Header, NodeSection(triangulation.nodes, formatFloat), ElementSection(triangulation.elements),
        ElsetSection(|triangulation.elements|), Footer);
    }

    method WriteHeader()
      modifies this
      ensures writer == old(writer) + Header
    {
      writer := writer + "*Part, name=PART-1\n";
    }

    /** `write_nodes`: the keyword line, then one line per node, numbered from 1. */
    method WriteNodes()
      modifies this
      ensures writer == old(writer) + NodeSection(triangulation.nodes, formatFloat)
    {
      writer := writer + "*Node\n";
      var nodes := triangulation.nodes;
      ghost var w0 := old(writer);
      ghost var rows := NodeRows(nodes, formatFloat);
      for i := 0 to |nodes|
        invariant writer == w0 + NodeKeyword + Terminated(rows[..i])
      {
        var line := NodeRow(i, nodes[i], formatFloat);
        writer := writer + line + "\n";
        NodeLineStep(w0, nodes, formatFloat, i);
      }
      NodeSectionDone(w0, nodes, formatFloat);
    }

    /** `write_elements`: the keyword line, then one line per element, all numbers 1-based. */
    method WriteElements()
      modifies this
      ensures writer == old(writer) + ElementSection(triangulation.elements)
    {
      writer := writer + "*Element, type=CPE3\n";
      var elements := triangulation.elements;
      ghost var w0 := old(writer);
      ghost var rows := ElementRows(elements);
      for i := 0 to |elements|
        invariant writer == w0 + ElementKeyword + Terminated(rows[..i])
      {
        var line := ElementRow(i, elements[i]);
        writer := writer + line + "\n";
        ElementLineStep(w0, elements, i);
      }
      ElementSectionDone(w0, elements);
    }

    /**
     * `write_elset`: the element numbers `1..n`, a comma before each but the first,
     * and a line break before each tenth one after the first line.
     */
    method WriteElset()
      modifies this
      ensures writer == old(writer) + ElsetSection(|triangulation.elements|)
    {
      writer := writer + ElsetKeyword;
      var eles := triangulation.elements;
      ghost var w0 := old(writer);
      var written := 0;
      while written < |eles|
        invariant 0 <= written <= |eles|
        invariant writer == w0 + ElsetKeyword + ElsetEntries(written)
      {
        WriteElsetEntry(written);
        ElsetLineStep(w0, written);
        written := written + 1;
      }
      writer := writer + "\n";
      ElsetDone(w0, written);
    }

    /** One turn of the loop of `write_elset`: the comma, the line break when due, and the number. */
    method WriteElsetEntry(written: nat)
      modifies this
      ensures writer == old(writer) + ElsetTurn(written)
    {
      var comma := "";
      if written > 0 {
        writer := writer + ",";
        comma := ",";
      }
      assert writer == old(writer) + comma;
      var brk := "";
      if written % 10 == 0 && written != 0 {
        writer := writer + "\n";
        brk := "\n";
      }
      assert writer == old(writer) + comma + brk;
      var digits := NatToString(written + 1);
      writer := writer + digits;
      assert comma + brk + digits == ElsetTurn(written);
    }

    method WriteFooter()
      modifies this
      ensures writer == old(writer) + Footer
    {
      writer := writer + "*Solid Section, elset=M_1, material=M_1\n1.,\n*End Part\n**\n**\n** ASSEMBLY\n**\n"
        + "*Assembly, name=Assembly\n**\n*Instance, name=PART-1-1, part=PART-1\n*End Instance\n**\n*End Assembly\n";
    }
  }

  lemma {:induction false} AppendSections(w: string, a: string, b: string, c: string, d: string, e: string)
    ensures w + a + b + c + d + e == w + (a + b + c + d + e)
  {
  }

  /** One more node line extends the node section by that line. */
  lemma {:induction false} NodeLineStep(w: string, nodes: seq<Point2>, fmt: real -> string, i: nat)
    requires i < |nodes|
    ensures w + NodeKeyword + Terminated(NodeRows(nodes, fmt)[..i]) + NodeRow(i, nodes[i], fmt) + "\n"
         == w + NodeKeyword + Terminated(NodeRows(nodes, fmt)[..i + 1])
  {
    var rows := NodeRows(nodes, fmt);
    assert rows[..i + 1][..i] == rows[..i];
    assert rows[..i + 1][i] == NodeRow(i, nodes[i], fmt);
  }

  /** One more element line extends the element section by that line. */
  lemma {:induction false} ElementLineStep(w: string, elements: seq<Triangle>, i: nat)
    requires i < |elements|
    ensures w + ElementKeyword + Terminated(ElementRows(elements)[..i]) + ElementRow(i, elements[i]) + "\n"
         == w + ElementKeyword + Terminated(ElementRows(elements)[..i + 1])
  {
    var rows := ElementRows(elements);
    assert rows[..i + 1][..i] == rows[..i];
    assert rows[..i + 1][i] == ElementRow(i, elements[i]);
  }

  /** All node lines written make the node section. */
  lemma {:induction false} NodeSectionDone(w: string, nodes: seq<Point2>, fmt: real -> string)
    ensures w + NodeKeyword + Terminated(NodeRows(nodes, fmt)[..|nodes|]) == w + NodeSection(nodes, fmt)
  {
    assert NodeRows(nodes, fmt)[..|nodes|] == NodeRows(nodes, fmt);
  }

  /** All element lines written make the element section. */
  lemma {:induction false} ElementSectionDone(w: string, elements: seq<Triangle>)
    ensures w + ElementKeyword + Terminated(ElementRows(elements)[..|elements|]) == w + ElementSection(elements)
  {
    assert ElementRows(elements)[..|elements|] == ElementRows(elements);
  }

  /** One more turn of the element-set loop extends the entries written so far by that turn. */
  lemma {:induction false} ElsetLineStep(w: string, n: nat)
    ensures w + ElsetKeyword + ElsetEntries(n) + ElsetTurn(n) == w + ElsetKeyword + ElsetEntries(n + 1)
  {
  }

  /** The keyword line, the entries and the closing line break make the element set. */
  lemma {:induction false} ElsetDone(w: string, n: nat)
    ensures w + ElsetKeyword + ElsetEntries(n) + "\n" == w + ElsetSection(n)
  {
  }

  /** `write_to_abaqus_format`: what ends up after `buf` is the whole file for `triangulation`. */
  method WriteToAbaqusFormat(buf: string, triangulation: Triangulation, formatFloat: real -> string)
    returns (out: string)
    ensures out == buf + Document(triangulation, formatFloat)
  {
    var w := new AbaqusWriter(buf, triangulation, formatFloat);
    w.Write();
    out := w.writer;
  }
}
