/** Compression of a file with Huffman codes, and decompression. */
module FileCompress {
  import opened Options
  import opened OptimalTrees
  import opened HuffmanHeap
  import opened HuffmanTree
  import opened PrefixCodes

  datatype FileInformation = FileInformation(count: nat, code: Bits, ch: Byte)

  datatype ConfigInfo = ConfigInfo(ch: Byte, count: int)

  /** A compressed file: the records with the counts up to one with count -1, and the
      bytes after them. */
  datatype Compressed = Compressed(records: seq<ConfigInfo>, data: seq<Byte>)

  /** How often a byte occurs in a text. */
  function Occurrences(text: seq<Byte>, c: Byte): nat {
    if text == [] then 0 else Occurrences(text[..|text| - 1], c) + One(text[|text| - 1] == c)
  }

  function ByteCounts(text: seq<Byte>): (counts: seq<nat>)
    ensures |counts| == 256
  {
    seq(256, i requires 0 <= i < 256 => Occurrences(text, i))
  }

  function CountsOf(infos: seq<FileInformation>): (counts: seq<nat>)
    requires |infos| == 256
    ensures |counts| == 256
  {
    seq(256, i requires 0 <= i < 256 => infos[i].count)
  }

  lemma {:induction false} TotalCount(text: seq<Byte>)
    ensures TotalOf(ByteCounts(text), 256) == |text|
    decreases |text|
  {
    if text == [] {
      ZeroTotal(ByteCounts(text), 256);
    } else {
      var k := |text| - 1;
      TotalCount(text[..k]);
      MoreTotal(ByteCounts(text[..k]), ByteCounts(text), text[k], 256);
    }
  }

  lemma {:induction false} ZeroTotal(counts: seq<nat>, i: nat)
    requires i <= |counts| && forall j :: 0 <= j < i ==> counts[j] == 0
    ensures TotalOf(counts, i) == 0
    decreases i
  {
    if i > 0 {
      ZeroTotal(counts, i - 1);
    }
  }

  lemma {:induction false} MoreTotal(a: seq<nat>, b: seq<nat>, c: nat, i: nat)
    requires i <= |a| == |b| && c < |a| && forall j :: 0 <= j < |a| ==> b[j] == a[j] + One(j == c)
    ensures TotalOf(b, i) == TotalOf(a, i) + One(c < i)
    decreases i
  {
    if i > 0 {
      MoreTotal(a, b, c, i - 1);
    }
  }

  lemma {:induction false} OccursAt(text: seq<Byte>, i: nat)
    requires i < |text|
    ensures Occurrences(text, text[i]) > 0
    decreases |text|
  {
    if i < |text| - 1 {
      OccursAt(text[..|text| - 1], i);
    }
  }

  lemma {:induction false} OccursWhere(text: seq<Byte>, c: Byte) returns (i: nat)
    requires Occurrences(text, c) > 0
    ensures i < |text| && text[i] == c
    decreases |text|
  {
    i := |text| - 1;
    if text[i] != c {
      i := OccursWhere(text[..i], c);
    }
  }

  lemma {:induction false} OccurringOne(counts: seq<nat>, i: nat)
    requires i < |counts| && counts[i] != 0
    ensures Occurring(counts) > 0
    ensures Occurring(counts) > 1 <==> exists j :: 0 <= j < |counts| && j != i && counts[j] != 0
    decreases |counts|
  {
    var k := |counts| - 1;
    if i < k {
      OccurringOne(counts[..k], i);
      assert forall j :: 0 <= j < k ==> counts[..k][j] == counts[j];
    } else if Occurring(counts[..k]) > 0 {
      var j := OccurringWhere(counts[..k]);
      assert counts[j] != 0;
    } else {
      forall j | 0 <= j < k && counts[j] != 0 ensures false {
        OccurringOne(counts[..k], j);
      }
    }
  }

  lemma {:induction false} OccurringWhere(counts: seq<nat>) returns (i: nat)
    requires Occurring(counts) > 0
    ensures i < |counts| && counts[i] != 0
    decreases |counts|
  {
    i := |counts| - 1;
    if counts[i] == 0 {
      i := OccurringWhere(counts[..i]);
    }
  }

  /** The counts tell whether a text is empty, and whether it has two different bytes. */
  lemma TwoBytes(text: seq<Byte>)
    ensures Occurring(ByteCounts(text)) > 0 <==> text != []
    ensures Occurring(ByteCounts(text)) > 1 <==> exists i, j :: 0 <= i < j < |text| && text[i] != text[j]
  {
    var counts := ByteCounts(text);
    if Occurring(counts) > 0 {
      var c := OccurringWhere(counts);
      var i := OccursWhere(text, c);
      OccurringOne(counts, c);
      if Occurring(counts) > 1 {
        var d :| 0 <= d < |counts| && d != c && counts[d] != 0;
        var j := OccursWhere(text, d);
        assert if i < j then text[i] != text[j] else text[j] != text[i];
      }
    }
    if text != [] {
      OccursAt(text, 0);
      OccurringOne(counts, text[0]);
    }
    forall i, j | 0 <= i < j < |text| && text[i] != text[j] ensures Occurring(counts) > 1 {
      OccursAt(text, i);
      OccursAt(text, j);
      OccurringOne(counts, text[i]);
      assert counts[text[j]] != 0;
    }
  }

  // ---------- the codes ----------

  /** The codes of all leaves under `t`, which is at the end of the way `p`, are stored. */
  function Assigned(infos: seq<FileInformation>, t: Huff, p: Bits): (r: seq<FileInformation>)
    requires |infos| == 256
    ensures |r| == 256
    decreases t
  {
    match t
    case Leaf(c, _) => infos[c := infos[c].(code := p)]
    case Node(_, l, r) => Assigned(Assigned(infos, l, p + [false]), r, p + [true])
  }

  /** Afterwards the code of each byte is its way from the root; nothing else changes. */
  lemma {:induction false} AssignedCode(infos: seq<FileInformation>, t: Huff, p: Bits, c: Byte)
    requires |infos| == 256 && Bytes(t, c) <= 1
    ensures Assigned(infos, t, p)[c] == if InTree(t, c) then infos[c].(code := p + CodeOf(t, c)) else infos[c]
    decreases t
  {
    match t
    case Leaf(_, _) =>
      assert p + [] == p;
    case Node(_, l, r) =>
      AssignedCode(infos, l, p + [false], c);
      AssignedCode(Assigned(infos, l, p + [false]), r, p + [true], c);
      if InTree(l, c) {
        assert p + ([false] + CodeOf(l, c)) == p + [false] + CodeOf(l, c);
      } else if InTree(r, c) {
        assert p + ([true] + CodeOf(r, c)) == p + [true] + CodeOf(r, c);
      }
  }

  /** A node on the stack of the traversal, with its code. */
  datatype Entry = Entry(node: Huff, code: Bits)

  /** What the traversal has still to do for the nodes on the stack. */
  function Pending(infos: seq<FileInformation>, stack: seq<Entry>): (r: seq<FileInformation>)
    requires |infos| == 256
    decreases |stack|
  {
    if stack == [] then infos
    else
      var e := stack[|stack| - 1];
      var m := if e.node.Leaf? then infos[e.node.ch := infos[e.node.ch].(code := e.code)]
        else Assigned(infos, e.node.right, e.code + [true]);
      Pending(m, stack[..|stack| - 1])
  }

  function Size(t: Huff): nat {
    match t
    case Leaf(_, _) => 1
    case Node(_, l, r) => 1 + Size(l) + Size(r)
  }

  function StackSize(stack: seq<Entry>): nat {
    if stack == [] then 0
    else
      var t := stack[|stack| - 1].node;
      StackSize(stack[..|stack| - 1]) + 1 + if t.Node? then 2 * Size(t.right) else 0
  }

  /** What the traversal has still to do at the present node and for the stack. */
  function Todo(infos: seq<FileInformation>, cur: Option<Entry>, stack: seq<Entry>): seq<FileInformation>
    requires |infos| == 256
  {
    Pending(if cur.Some? then Assigned(infos, cur.value.node, cur.value.code) else infos, stack)
  }

  function Work(cur: Option<Entry>, stack: seq<Entry>): nat {
    StackSize(stack) + if cur.Some? then 2 * Size(cur.value.node) else 0
  }

  // ---------- packing ----------

  /** The bits written so far: whole bytes and those in the accumulator. */
  ghost predicate Written(out: seq<Byte>, value: nat, pos: nat, bits: Bits) {
    pos < 8 && value < Power2(pos) && Unpacked(out) + ValueBits(value, pos) == bits
  }

  lemma NothingWritten(t: Huff, text: seq<Byte>)
    ensures Written([], 0, 0, []) && AllIn(t, text[..0]) && Encoded(t, text[..0]) == []
  {
  }

  /** One bit is appended; a full accumulator is written out. */
  lemma WriteBit(out: seq<Byte>, value: nat, pos: nat, bits: Bits, b: bool)
    requires Written(out, value, pos, bits)
    ensures
      var v := 2 * value + One(b);
      && v < 256 && v / 2 == value && (v % 2 == 1 <==> b)
      && (pos < 7 ==> Written(out, v, pos + 1, bits + [b]))
      && (pos == 7 ==> Written(out + [v], 0, 0, bits + [b]))
  {
    var v := 2 * value + One(b);
    Powers(pos + 1);
    assert ValueBits(v, pos + 1) == ValueBits(value, pos) + [b];
    assert Unpacked(out) + (ValueBits(value, pos) + [b]) == bits + [b];
    if pos == 7 {
      assert (out + [v])[..|out|] == out;
      assert Unpacked(out + [v]) + ValueBits(0, 0) == Unpacked(out + [v]);
    }
  }

  lemma {:induction false} Powers(n: nat)
    requires n <= 8
    ensures Power2(n) <= 256
  {
    assert Power2(8) == 256 by {
      assert Power2(3) == 8;
      assert Power2(6) == 64;
    }
    if n < 8 {
      PowersLess(n, 8);
    }
  }

  lemma {:induction false} PowersLess(n: nat, m: nat)
    requires n <= m
    ensures Power2(n) <= Power2(m)
    decreases m
  {
    if n < m {
      PowersLess(n, m - 1);
    }
  }

  /** The last byte is filled up with zeros. */
  lemma Flush(out: seq<Byte>, value: nat, pos: nat, bits: Bits)
    requires Written(out, value, pos, bits) && pos != 0
    ensures ShiftLeft(value, 8 - pos) < 256
    ensures Unpacked(out + [ShiftLeft(value, 8 - pos)]) == bits + Zeros(8 - pos)
  {
    var v := ShiftLeft(value, 8 - pos);
    ShiftLeftBits(value, pos, 8 - pos);
    Powers(8);
    assert (out + [v])[..|out|] == out;
    assert Unpacked(out) + (ValueBits(value, pos) + Zeros(8 - pos)) == bits + Zeros(8 - pos);
  }

  // ---------- records ----------

  /** The records of the bytes among the first `i` that occur. */
  function Records(infos: seq<FileInformation>, i: nat): seq<ConfigInfo>
    requires i <= |infos|
  {
    if i == 0 then []
    else if infos[i - 1].count != 0 then Records(infos, i - 1) + [ConfigInfo(infos[i - 1].ch, infos[i - 1].count)]
    else Records(infos, i - 1)
  }

  ghost predicate Terminated(records: seq<ConfigInfo>) {
    exists k :: Terminator(records, k)
  }

  ghost predicate Terminator(records: seq<ConfigInfo>, k: int) {
    0 <= k < |records| && records[k].count == -1 && forall i :: 0 <= i < k ==> records[i].count >= 0
  }

  /** The counts after the first `i` records were stored. */
  function Stored(infos: seq<FileInformation>, records: seq<ConfigInfo>, i: nat): (r: seq<FileInformation>)
    requires |infos| == 256 && i <= |records| && forall j :: 0 <= j < i ==> records[j].count >= 0
    ensures |r| == 256
  {
    if i == 0 then infos
    else
      var m := Stored(infos, records, i - 1);
      var c := records[i - 1];
      m[c.ch := m[c.ch].(ch := c.ch, count := c.count)]
  }

  ghost predicate Fresh(infos: seq<FileInformation>) {
    |infos| == 256 && forall i :: 0 <= i < 256 ==> infos[i] == FileInformation(0, [], i)
  }

  ghost predicate Indexed(infos: seq<FileInformation>) {
    |infos| == 256 && forall i :: 0 <= i < 256 ==> infos[i].ch == i
  }

  lemma {:induction false} StoredPrefix(infos: seq<FileInformation>, a: seq<ConfigInfo>, b: seq<ConfigInfo>, i: nat)
    requires |infos| == 256 && i <= |a| && forall j :: 0 <= j < i ==> a[j].count >= 0
    ensures forall j :: 0 <= j < i ==> (a + b)[j].count >= 0
    ensures Stored(infos, a + b, i) == Stored(infos, a, i)
    decreases i
  {
    if i > 0 {
      StoredPrefix(infos, a, b, i - 1);
      assert (a + b)[i - 1] == a[i - 1];
    }
  }

  lemma {:induction false} RecordsCounts(infos: seq<FileInformation>, i: nat)
    requires i <= |infos|
    ensures forall j :: 0 <= j < |Records(infos, i)| ==> Records(infos, i)[j].count >= 0
    decreases i
  {
    if i > 0 {
      RecordsCounts(infos, i - 1);
    }
  }

  /** Storing the records of the counts gives the counts back. */
  lemma {:induction false} RecordsStored(blank: seq<FileInformation>, infos: seq<FileInformation>, i: nat)
    requires Fresh(blank) && Indexed(infos) && i <= 256
    ensures forall j :: 0 <= j < |Records(infos, i)| ==> Records(infos, i)[j].count >= 0
    ensures forall j :: 0 <= j < 256 ==>
      Stored(blank, Records(infos, i), |Records(infos, i)|)[j].count == if j < i then infos[j].count else 0
    decreases i
  {
    RecordsCounts(infos, i);
    if i > 0 {
      RecordsStored(blank, infos, i - 1);
      var a := Records(infos, i - 1);
      if infos[i - 1].count != 0 {
        StoredPrefix(blank, a, [ConfigInfo(infos[i - 1].ch, infos[i - 1].count)], |a|);
      }
    }
  }

  /** The header that is written for a text reads back as its counts. */
  lemma HeaderReads(blank: seq<FileInformation>, infos: seq<FileInformation>, last: ConfigInfo)
    requires Fresh(blank) && Indexed(infos) && last.count == -1
    ensures
      var r := Records(infos, 256);
      Terminator(r + [last], |r|) && CountsOf(Stored(blank, r + [last], |r|)) == CountsOf(infos)
  {
    var r := Records(infos, 256);
    RecordsStored(blank, infos, 256);
    StoredPrefix(blank, r, [last], |r|);
  }

  /** The tree of the counts of a text has each byte of the text, once. */
  lemma TreeBytes(counts: seq<nat>, text: seq<Byte>)
    requires counts == ByteCounts(text) && Occurring(counts) > 0
    ensures Single(Tree(counts)) && AllIn(Tree(counts), text) && Tree(counts).n == |text|
  {
    TotalCount(text);
    forall c: Byte ensures Bytes(Tree(counts), c) == One(counts[c] != 0) {
      TreeContents(counts, 0, c);
    }
    forall i | 0 <= i < |text| ensures InTree(Tree(counts), text[i]) {
      OccursAt(text, i);
    }
    TreeContents(counts, 0, 0);
  }

  /** For all trees of counts: no byte has two leaves, and inner nodes have weight. */
  lemma TreeSingle(counts: seq<nat>)
    requires |counts| == 256 && Occurring(counts) > 0
    ensures Single(Tree(counts)) && Tree(counts).n == TotalOf(counts, 256)
  {
    forall c: Byte ensures Bytes(Tree(counts), c) <= 1 {
      TreeContents(counts, 0, c);
    }
    TreeContents(counts, 0, 0);
  }

  /** The total of the counts is positive when one of them is. */
  lemma {:induction false} TotalPositive(counts: seq<nat>, i: nat, c: nat)
    requires c < i <= |counts| && counts[c] > 0
    ensures TotalOf(counts, i) > 0
    decreases i
  {
    if c < i - 1 {
      TotalPositive(counts, i - 1, c);
    }
  }

  /** What the codes of all bytes are after the traversal. */
  ghost predicate Coded(infos: seq<FileInformation>, t: Huff) {
    |infos| == 256 && forall c: Byte :: infos[c].code == if InTree(t, c) then CodeOf(t, c) else []
  }

  /** The code that is written at the end of the file for the byte 255. */
  ghost function EofCode(t: Huff): Bits {
    if InTree(t, 255) then CodeOf(t, 255) else []
  }

  /** The compressed data: the codes of the text, then that of the end of the file, then
      zeros up to a whole byte. */
  ghost predicate Packed(data: seq<Byte>, t: Huff, text: seq<Byte>)
    requires AllIn(t, text)
  {
    exists k: nat :: k < 8 && PaddedBy(data, t, text, k)
  }

  ghost predicate PaddedBy(data: seq<Byte>, t: Huff, text: seq<Byte>, k: nat)
    requires AllIn(t, text)
  {
    Unpacked(data) == Encoded(t, text) + EofCode(t) + Zeros(k)
  }

  /** The last bits, filled up with zeros, complete the data. */
  lemma LastByte(out: seq<Byte>, value: nat, pos: nat, t: Huff, text: seq<Byte>)
    requires AllIn(t, text) && Written(out, value, pos, Encoded(t, text) + EofCode(t))
    ensures pos != 0 ==> ShiftLeft(value, 8 - pos) < 256 && Packed(out + [ShiftLeft(value, 8 - pos)], t, text)
    ensures pos == 0 ==> Packed(out, t, text)
  {
    var bits := Encoded(t, text) + EofCode(t);
    if pos != 0 {
      Flush(out, value, pos, bits);
      assert PaddedBy(out + [ShiftLeft(value, 8 - pos)], t, text, 8 - pos);
    } else {
      assert bits + Zeros(0) == bits && Unpacked(out) + ValueBits(value, 0) == Unpacked(out);
      assert PaddedBy(out, t, text, 0);
    }
  }

  /** One more byte of a text. */
  lemma EncodedNext(t: Huff, text: seq<Byte>, i: nat)
    requires AllIn(t, text) && i < |text|
    ensures InTree(t, text[i]) && AllIn(t, text[..i]) && AllIn(t, text[..i + 1])
    ensures Encoded(t, text[..i + 1]) == Encoded(t, text[..i]) + CodeOf(t, text[i])
  {
    assert text[..i] + [text[i]] == text[..i + 1];
    EncodedAppend(t, text[..i], text[i]);
  }

  /** Packed data begin with the codes of the text. */
  lemma PackedReads(data: seq<Byte>, t: Huff, text: seq<Byte>)
    requires AllIn(t, text) && Packed(data, t, text)
    ensures Reads(data, 0, Encoded(t, text))
  {
    var k: nat :| k < 8 && PaddedBy(data, t, text, k);
    var bits := Encoded(t, text);
    forall i | 0 <= i < |bits| ensures bits[i] == BitAt(data, 0 + i) {
      assert Unpacked(data)[i] == bits[i];
      UnpackedAt(data, i);
    }
  }

  class FileCompress {
    var info: seq<FileInformation>

    constructor ()
      ensures Fresh(info)
    {
      info := seq(256, i requires 0 <= i < 256 => FileInformation(0, [], i));
    }

    /** Counts the bytes of a file. */
    method CountBytes(text: seq<Byte>)
      requires Fresh(info)
      modifies this
      ensures Indexed(info) && CountsOf(info) == ByteCounts(text) && forall c: Byte :: info[c].code == []
    {
      var i := 0;
      while i < |text|
        invariant i <= |text| && Indexed(info)
        invariant forall c: Byte :: info[c].count == Occurrences(text[..i], c) && info[c].code == []
      {
        var ch := text[i];
        assert text[..i + 1][..i] == text[..i];
        info := info[ch := info[ch].(count := info[ch].count + 1)];
        i := i + 1;
      }
      assert text[..i] == text;
    }

    /** Stores the codes of all leaves, by a traversal with a stack. */
    method Conversion(root: Huff)
      requires |info| == 256
      modifies this
      ensures info == Assigned(old(info), root, [])
    {
      ghost var goal := Assigned(info, root, []);
      var cur := Some(Entry(root, []));
      var stack: seq<Entry> := [];
      while cur.Some? || stack != []
        invariant |info| == 256 && Todo(info, cur, stack) == goal
        decreases Work(cur, stack)
      {
        ghost var work := Work(cur, stack);
        while cur.Some?
          invariant |info| == 256 && Todo(info, cur, stack) == goal && (cur.None? ==> stack != [])
            && Work(cur, stack) <= work
          decreases Work(cur, stack)
        {
          PushNode(info, cur.value, stack);
          stack := stack + [cur.value];
          cur := if cur.value.node.Node? then Some(Entry(cur.value.node.left, cur.value.code + [false])) else None;
        }
        var e := stack[|stack| - 1];
        if e.node.Leaf? {
          info := info[e.node.ch := info[e.node.ch].(code := e.code)];
        }
        stack := stack[..|stack| - 1];
        cur := if e.node.Node? then Some(Entry(e.node.right, e.code + [true])) else None;
      }
    }

    /** Writes the counts of the bytes that occur. */
    method ConfigurationFileInformation() returns (records: seq<ConfigInfo>)
      requires Indexed(info)
      ensures exists last: ConfigInfo :: last.count == -1 && records == Records(info, 256) + [last]
    {
      var record := ConfigInfo(0, 0);
      records := [];
      var i := 0;
      while i < 256
        invariant i <= 256 && records == Records(info, i)
      {
        if info[i].count != 0 {
          record := ConfigInfo(info[i].ch, info[i].count);
          records := records + [record];
        }
        i := i + 1;
      }
      record := record.(count := -1);
      records := records + [record];
      assert record.count == -1;
    }

    /** Writes the code of one byte into the accumulator and the file. */
    method PutCode(code: Bits, out0: seq<Byte>, value0: nat, pos0: nat, ghost bits: Bits)
      returns (out: seq<Byte>, value: nat, pos: nat)
      requires Written(out0, value0, pos0, bits)
      ensures Written(out, value, pos, bits + code) && pos < 8
    {
      out, value, pos := out0, value0, pos0;
      assert bits + code[..0] == bits;
      for j := 0 to |code|
        invariant Written(out, value, pos, bits + code[..j])
      {
        WriteBit(out, value, pos, bits + code[..j], code[j]);
        assert bits + code[..j] + [code[j]] == bits + code[..j + 1];
        value := value * 2;
        if code[j] {
          value := value + 1;
        }
        pos := pos + 1;
        if pos == 8 {
          out := out + [value];
          value, pos := 0, 0;
        }
      }
      assert code[..|code|] == code;
    }

    /** Writes the codes of all bytes. The loop ends only after a read past the end of the
        file, so the code of the byte 255 is written as well. */
    method CompressToFile(text: seq<Byte>, ghost t: Huff) returns (out: seq<Byte>)
      requires AllIn(t, text) && Coded(info, t)
      ensures Packed(out, t, text)
    {
      hide InTree, CodeOf, Encoded, Unpacked, ValueBits, ShiftLeft, Packed, Written;
      out := [];
      var value: nat, pos: nat := 0, 0;
      var i: nat, eof := 0, false;
      ghost var bits: Bits := [];
      NothingWritten(t, text);
      while !eof
        invariant i <= |text| && pos < 8 && Written(out, value, pos, bits) && AllIn(t, text[..i])
        invariant bits == if eof then Encoded(t, text) + EofCode(t) else Encoded(t, text[..i])
        decreases !eof, |text| - i
      {
        var ch: Byte := 255;
        if i < |text| {
          ch := text[i];
          EncodedNext(t, text, i);
          i := i + 1;
        } else {
          eof := true;
          assert text[..i] == text;
        }
        out, value, pos := PutCode(info[ch].code, out, value, pos, bits);
        bits := bits + info[ch].code;
      }
      LastByte(out, value, pos, t, text);
      if pos != 0 {
        value := ShiftLeft(value, 8 - pos);
        out := out + [value];
      }
    }

    /** Compresses a file; an empty file fails the assertion that the heap has an element. */
    method Compress(text: seq<Byte>) returns (file: Option<Compressed>)
      requires Fresh(info)
      modifies this
      ensures file.None? <==> text == []
      ensures file.Some? ==>
        var counts := ByteCounts(text);
        && Occurring(counts) > 0 && AllIn(Tree(counts), text) && Packed(file.value.data, Tree(counts), text)
        && exists infos, last: ConfigInfo :: Header(file.value.records, infos, counts, last)
    {
      CountBytes(text);
      TwoBytes(text);
      var counts := CountsOf(info);
      if text == [] {
        return None;
      }
      var ht := new HuffmanTree(counts);
      TreeBytes(counts, text);
      ghost var before := info;
      Conversion(ht.root);
      CodesDone(before, info, ht.root, counts);
      var records := ConfigurationFileInformation();
      ghost var last: ConfigInfo :| last.count == -1 && records == Records(info, 256) + [last];
      assert Header(records, info, counts, last);
      var data := CompressToFile(text, ht.root);
      file := Some(Compressed(records, data));
    }

    /** Reads the counts. */
    method ReadRecords(records: seq<ConfigInfo>, ghost k: int)
      requires Fresh(info) && Terminator(records, k)
      modifies this
      ensures |info| == 256 && info == Stored(old(info), records, k)
    {
      var i := 0;
      while records[i].count != -1
        invariant i <= k && |info| == 256 && info == Stored(old(info), records, i)
        decreases k - i
      {
        var c := records[i];
        info := info[c.ch := info[c.ch].(ch := c.ch, count := c.count)];
        i := i + 1;
      }
    }

    /** Decodes as many bytes as the root weighs. */
    method Decode(root: Huff, data: seq<Byte>) returns (out: seq<Byte>)
      requires root.Node? && root.n > 0 && Single(root)
      ensures |out| == root.n && AllIn(root, out) && Reads(data, 0, Encoded(root, out))
    {
      hide Encoded, Reads, ValueBits, BitAt;
      out := [];
      var cur := root;
      var total := root.n;
      var pos, index := 7, 1;
      var value: nat := if |data| > 0 then data[0] else 255;
      ghost var k: nat, p: Bits := 0, [];
      DecodeStart(root, data);
      while true
        invariant 0 <= pos < 8 && k == 8 * (index - 1) + 7 - pos && index > 0
        invariant value == if index - 1 < |data| then data[index - 1] else 255
        invariant Decoding(root, data, k, out, p) && Follow(root, p) == cur && cur.Node?
        invariant total + |out| == root.n && total > 0
        decreases total, cur
      {
        BitOf(data, value, index - 1, pos);
        ghost var b := ShiftRight(value, pos) % 2 == 1;
        DecodeBit(root, data, k, out, p, b);
        if ShiftRight(value, pos) % 2 == 1 {
          cur := cur.right;
        } else {
          cur := cur.left;
        }
        pos := pos - 1;
        k, p := k + 1, p + [b];
        if cur.Leaf? {
          DecodeByte(root, data, k, out, p);
          out := out + [cur.ch];
          cur := root;
          p := [];
          total := total - 1;
          if total == 0 {
            break;
          }
        }
        if pos < 0 {
          value := if index < |data| then data[index] else 255;
          index := index + 1;
          pos := 7;
        }
      }
      DecodeDone(root, data, k, out, p);
    }

    /** Decompresses a file. Without a byte in the header there is no tree, and with only
        one the decoder would step from the root to a child that does not exist. */
    method Uncompress(file: Compressed) returns (r: Option<seq<Byte>>)
      requires Fresh(info) && Terminated(file.records)
      modifies this
      ensures forall k :: Terminator(file.records, k) ==>
        var counts := CountsOf(Stored(old(info), file.records, k));
        && (r.Some? <==> Occurring(counts) > 1)
        && (r.Some? ==>
            AllIn(Tree(counts), r.value) && |r.value| == TotalOf(counts, 256)
              && Reads(file.data, 0, Encoded(Tree(counts), r.value)))
    {
      ghost var k :| Terminator(file.records, k);
      ReadRecords(file.records, k);
      OneTerminator(file.records);
      var counts := CountsOf(info);
      if Occurring(counts) == 0 {
        return None;
      }
      var ht := new HuffmanTree(counts);
      TreeLeaf(counts);
      TreeSingle(counts);
      if ht.root.Leaf? {
        return None;
      }
      ghost var c := OccurringWhere(counts);
      TotalPositive(counts, 256, c);
      var out := Decode(ht.root, file.data);
      r := Some(out);
    }
  }

  /** A header with the counts of a text. */
  ghost predicate Header(records: seq<ConfigInfo>, infos: seq<FileInformation>, counts: seq<nat>, last: ConfigInfo) {
    Indexed(infos) && CountsOf(infos) == counts && last.count == -1 && records == Records(infos, 256) + [last]
  }

  lemma OneTerminator(records: seq<ConfigInfo>)
    ensures forall i, j :: Terminator(records, i) && Terminator(records, j) ==> i == j
  {
  }

  lemma PushNode(infos: seq<FileInformation>, e: Entry, stack: seq<Entry>)
    requires |infos| == 256
    ensures
      var goal := Pending(Assigned(infos, e.node, e.code), stack);
      && (e.node.Leaf? ==> Pending(infos, stack + [e]) == goal)
      && (e.node.Node? ==> Pending(Assigned(infos, e.node.left, e.code + [false]), stack + [e]) == goal)
    ensures StackSize(stack + [e]) == StackSize(stack) + 1 + if e.node.Node? then 2 * Size(e.node.right) else 0
  {
    assert (stack + [e])[..|stack|] == stack;
  }

  /** After the traversal every byte has its code, and the counts are the same. */
  lemma CodesDone(before: seq<FileInformation>, infos: seq<FileInformation>, t: Huff, counts: seq<nat>)
    requires Indexed(before) && CountsOf(before) == counts && Single(t) && infos == Assigned(before, t, [])
    requires forall c: Byte :: before[c].code == []
    ensures Indexed(infos) && CountsOf(infos) == counts && Coded(infos, t)
  {
    forall c: Byte ensures infos[c] == if InTree(t, c) then before[c].(code := CodeOf(t, c)) else before[c] {
      AssignedCode(before, t, [], c);
      assert InTree(t, c) ==> [] + CodeOf(t, c) == CodeOf(t, c);
    }
  }

  lemma DecodeStart(t: Huff, data: seq<Byte>)
    ensures Decoding(t, data, 0, [], []) && Follow(t, []) == t
  {
  }

  lemma DecodeDone(t: Huff, data: seq<Byte>, k: nat, out: seq<Byte>, p: Bits)
    requires Decoding(t, data, k, out, p)
    ensures AllIn(t, out) && Reads(data, 0, Encoded(t, out))
  {
  }

  /** The bit that the decoder tests. */
  lemma BitOf(data: seq<Byte>, value: nat, index: nat, pos: nat)
    requires pos < 8 && value == if index < |data| then data[index] else 255
    ensures (ShiftRight(value, pos) % 2 == 1) == BitAt(data, 8 * index + 7 - pos)
  {
    TestBit(value, 8, pos);
    AllOnes(pos);
  }

  lemma {:induction false} Ones(n: nat, pos: nat)
    requires pos < n
    ensures ShiftRight(Power2(n) - 1, pos) % 2 == 1
    decreases pos
  {
    if pos > 0 {
      Ones(n - 1, pos - 1);
      assert (Power2(n) - 1) / 2 == Power2(n - 1) - 1;
    }
  }

  lemma AllOnes(pos: nat)
    requires pos < 8
    ensures ShiftRight(255, pos) % 2 == 1
  {
    assert Power2(4) == 16;
    assert Power2(8) == 256;
    Ones(8, pos);
  }

  /** Compressing and decompressing a file gives the file back exactly when it has two
      different bytes. */
  method RoundTrip(text: seq<Byte>) returns (r: Option<seq<Byte>>)
    ensures r == if exists i, j :: 0 <= i < j < |text| && text[i] != text[j] then Some(text) else None
  {
    TwoBytes(text);
    var compressor := new FileCompress();
    var file := compressor.Compress(text);
    if file.None? {
      return None;
    }
    var decompressor := new FileCompress();
    ghost var blank := decompressor.info;
    ghost var counts := ByteCounts(text);
    ghost var infos, last: ConfigInfo :| Header(file.value.records, infos, counts, last);
    HeaderReads(blank, infos, last);
    ghost var k := |Records(infos, 256)|;
    assert Terminator(file.value.records, k);
    r := decompressor.Uncompress(file.value);
    if r.Some? {
      TreeBytes(counts, text);
      TreeSingle(counts);
      PackedReads(file.value.data, Tree(counts), text);
      UniqueReading(Tree(counts), file.value.data, 0, r.value, text);
    }
  }
}
