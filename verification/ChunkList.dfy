/** ByteArray (src/bytearray.cpp) as it is: a linked list of chunks, changed in place, with a cursor
    that is advanced lazily.  Every method is tied to the operation of module ByteArrays on the flat
    content; a method that would follow a null link reports it and claims nothing more. */
module ChunkList {
  import opened ByteArrays
  import opened ByteCodec

  // ---------------------------------------------------------------- flat content of equal chunks

  function Join(chunks: seq<seq<byte>>): seq<byte> {
    if chunks == [] then [] else Join(chunks[..|chunks| - 1]) + chunks[|chunks| - 1]
  }

  predicate Even(chunks: seq<seq<byte>>, base: nat) {
    forall i :: 0 <= i < |chunks| ==> |chunks[i]| == base
  }

  lemma {:induction false} JoinSize(chunks: seq<seq<byte>>, base: nat)
    requires Even(chunks, base)
    ensures |Join(chunks)| == |chunks| * base
  {
    if chunks != [] {
      JoinSize(chunks[..|chunks| - 1], base);
      assert |chunks| * base == (|chunks| - 1) * base + base;
    }
  }

  lemma JoinMore(chunks: seq<seq<byte>>, c: seq<byte>)
    ensures Join(chunks + [c]) == Join(chunks) + c
  {
    assert (chunks + [c])[..|chunks|] == chunks;
  }

  lemma StartIsPos(b: Bytes, offset: nat)
    requires b.base >= 1
    ensures Start(b, offset) == Pos(if offset % b.base == 0 && offset > 0 && b.cur + 1 < b.nodes then b.cur + 1 else b.cur,
                                    offset % b.base, b.base)
  {
  }

  lemma JoinOne(c: seq<byte>)
    ensures Join([c]) == c
  {
    JoinMore([], c);
    assert [] + [c] == [c];
    assert Join([]) == [] && [] + c == c;
  }

  lemma Inside(n: nat, i: nat, o: nat, base: nat)
    requires i < n && o <= base
    ensures i * base + o <= n * base
    ensures i + 1 < n ==> i * base + o <= (n - 1) * base
    ensures (n - 1) * base + base == n * base
  {
    MulLe(i + 1, n, base);
    assert (i + 1) * base == i * base + base;
    assert (n - 1) * base == n * base - base;
    if i + 1 < n { MulLe(i + 1, n - 1, base); }
  }

  /** The flat position of byte o of chunk i. */
  function Pos(i: nat, o: nat, base: nat): nat {
    i * base + o
  }

  /** A chunk is a slice of the flat content. */
  lemma {:induction false} JoinSlice(chunks: seq<seq<byte>>, base: nat, i: nat, o: nat, m: nat)
    requires Even(chunks, base) && i < |chunks| && o + m <= base
    ensures Pos(i, o, base) + m <= |Join(chunks)|
    ensures Join(chunks)[Pos(i, o, base)..Pos(i, o, base) + m] == chunks[i][o..o + m]
  {
    var n := |chunks|;
    var front := chunks[..n - 1];
    JoinSize(chunks, base);
    JoinSize(front, base);
    Inside(n, i, o + m, base);
    if i < n - 1 {
      JoinSlice(front, base, i, o, m);
    }
  }

  /** Overwriting part of a chunk is overwriting that part of the flat content. */
  lemma {:induction false} JoinSplice(chunks: seq<seq<byte>>, base: nat, i: nat, o: nat, part: seq<byte>)
    requires Even(chunks, base) && i < |chunks| && o + |part| <= base
    ensures Pos(i, o, base) + |part| <= |Join(chunks)|
    ensures Join(chunks[i := Splice(chunks[i], o, part)]) == Splice(Join(chunks), Pos(i, o, base), part)
  {
    var n := |chunks|;
    var front, last := chunks[..n - 1], chunks[n - 1];
    var p := Pos(i, o, base);
    JoinSize(chunks, base);
    JoinSize(front, base);
    Inside(n, i, o + |part|, base);
    if i < n - 1 {
      JoinSplice(front, base, i, o, part);
      assert chunks[i := Splice(chunks[i], o, part)][..n - 1] == front[i := Splice(front[i], o, part)];
      assert Splice(Join(front), p, part) + last == Splice(Join(front) + last, p, part);
    } else {
      assert chunks[i := Splice(chunks[i], o, part)][..n - 1] == front;
      assert Join(front) + Splice(last, o, part) == Splice(Join(front) + last, p, part);
    }
  }

  // ---------------------------------------------------------------- the list

  /** Two writes one after the other, from b to b'; the second only if the first is defined. */
  ghost predicate TwoWrites(b: Bytes, buf: seq<byte>, junk: seq<byte>, buf': seq<byte>, junk': seq<byte>, defined: bool, b': Bytes) {
    && OneWrite(b, buf, junk)
    && var r := ByteArrays.Write(b, buf, junk);
       if !r.Ok? then !defined
       else
         && OneWrite(r.after, buf', junk')
         && var r' := ByteArrays.Write(r.after, buf', junk');
            (defined <==> r'.Ok?) && (defined ==> b' == r'.after)
  }

  ghost predicate OneWrite(b: Bytes, buf: seq<byte>, junk: seq<byte>) {
    Wf(b) && |junk| == if buf == [] then 0 else Shortfall(b, b.size + |buf|)
  }

  class Node {
    const data: array<byte>
    var nxt: Node?

    /** The memory is not initialised. */
    constructor (size: nat)
      ensures data.Length == size && nxt == null && fresh(data)
    {
      data := new byte[size];
      nxt := null;
    }
  }

  function After(nodes: seq<Node>, i: nat): Node? {
    if i + 1 < |nodes| then nodes[i + 1] else null
  }

  lemma AfterJoin(nodes: seq<Node>, node: Node)
    requires nodes != []
    ensures forall i :: 0 <= i < |nodes| - 1 ==> After(nodes + [node], i) == After(nodes, i)
    ensures After(nodes + [node], |nodes| - 1) == node && After(nodes + [node], |nodes|) == null
  {
  }

  class ByteArray {
    const base: nat
    var endian: Endian
    var size: nat
    var capacity: nat
    var offset: nat
    var root: Node?
    var cur: Node?
    var end: Node?
    ghost var nodes: seq<Node>
    ghost var chunks: seq<seq<byte>>  // what they hold
    ghost var at: nat                 // the index of cur

    ghost var repr: set<object>       // the nodes and their memory

    ghost predicate Linked()
      reads `nodes, `repr, `root, `end, repr
    {
      && this !in repr
      && (forall i :: 0 <= i < |nodes| ==> nodes[i] in repr && nodes[i].data in repr && nodes[i].data.Length == base)
      && (forall i, j :: 0 <= i < j < |nodes| ==> nodes[i] != nodes[j] && nodes[i].data != nodes[j].data)
      && (forall i :: 0 <= i < |nodes| ==> nodes[i].nxt == After(nodes, i))
      && (if nodes == [] then root == end == null else root == nodes[0] && end == nodes[|nodes| - 1])
    }

    ghost predicate Filled()
      reads `nodes, `repr, `chunks, repr
    {
      && |chunks| == |nodes| && Even(chunks, base)
      && forall i :: 0 <= i < |nodes| ==> nodes[i] in repr && nodes[i].data in repr && nodes[i].data[..] == chunks[i]
    }

    ghost predicate Pointed()
      reads `nodes, `at, `cur
    {
      if nodes == [] then cur == null && at == 0 else at < |nodes| && cur == nodes[at]
    }

    ghost predicate Valid()
      reads this, repr
    {
      this !in repr && Linked() && Filled() && Pointed() && base >= 1 && capacity == |nodes| * base && offset <= size <= capacity
    }

    ghost function View(): Bytes
      reads this
    {
      Bytes(base, |nodes|, Join(chunks), size, offset, at)
    }

    lemma ViewIsWf()
      requires Valid()
      ensures Wf(View())
    {
      JoinSize(chunks, base);
    }

    lemma JoinIsAll()
      requires Valid()
      ensures |Join(chunks)| == capacity
    {
      JoinSize(chunks, base);
    }

    constructor (baseSize: nat)
      requires baseSize >= 1
      ensures Valid() && View() == Empty(baseSize) && endian == LittleEndian
    {
      base, endian, size, capacity, offset := baseSize, LittleEndian, 0, 0, 0;
      root, cur, end := null, null, null;
      nodes, chunks, at, repr := [], [], 0, {};
    }

    /** A new chunk behind the last one. */
    method Extend() returns (ghost junk: seq<byte>)
      requires Linked() && Filled() && Pointed() && nodes != []
      modifies this`end, this`capacity, this`nodes, this`chunks, this`repr, end
      ensures Linked() && Filled() && Pointed() && |junk| == base
      ensures |nodes| == |old(nodes)| + 1 && fresh(repr - old(repr))
      ensures Join(chunks) == Join(old(chunks)) + junk && capacity == old(capacity) + base
    {
      hide After, Join;
      var node := new Node(base);
      AfterJoin(nodes, node);
      junk := node.data[..];
      end.nxt := node;
      end := node;
      capacity := capacity + base;
      JoinMore(chunks, junk);
      nodes := nodes + [node];
      chunks := chunks + [junk];
      repr := repr + {node, node.data};
    }

    lemma EndIsIn()
      requires Linked() && nodes != []
      ensures end != null && end in repr
    {
    }

    lemma RootTells()
      requires Valid()
      ensures root == null <==> nodes == []
      ensures root == null ==> chunks == [] && at == size == offset == 0 && Join(chunks) == []
    {
    }

    /** The first chunk of an empty array. */
    method Begin() returns (ghost junk: seq<byte>)
      requires base >= 1 && nodes == [] && chunks == [] && at == size == offset == 0
      modifies this
      ensures Valid() && fresh(repr) && endian == old(endian) && |junk| == base
      ensures View() == Bytes(base, 1, junk, 0, 0, 0)
    {
      hide Join, Even, Linked, Filled, Pointed;
      root := new Node(base);
      end, cur := root, root;
      size, offset, capacity := 0, 0, base;
      junk := root.data[..];
      nodes, chunks, repr := [root], [junk], {root, root.data};
      OneNode(root);
      JoinOne(junk);
      Times(0, base);
    }

    lemma OneNode(node: Node)
      requires nodes == [node] && root == node && end == node && cur == node && at == 0 && node.nxt == null
      requires node.data.Length == base && repr == {node, node.data} && this !in repr && chunks == [node.data[..]]
      ensures Linked() && Filled() && Pointed()
    {
      hide Join;
    }

    method AddCapacityTo(need: nat) returns (ghost junk: seq<byte>)
      requires Valid()
      modifies this, repr
      ensures Valid() && fresh(repr - old(repr)) && endian == old(endian)
      ensures |junk| == Shortfall(old(View()), need)
      ensures View() == ByteArrays.AddCapacityTo(old(View()), need, junk)
    {
      hide Even, NodesFor, Join, Linked, Filled, Pointed;
      junk := [];
      ghost var b := View();
      RootTells();
      if root == null {
        junk := Begin();
      }
      ghost var least := |nodes|;
      while capacity < need
        invariant Valid() && nodes != [] && fresh(repr - old(repr)) && endian == old(endian)
        invariant View() == b.(nodes := |nodes|, data := b.data + junk)
        invariant |junk| == (|nodes| - b.nodes) * base
        invariant |nodes| == least || capacity < need + base
        invariant |nodes| >= least
        decreases need - capacity
      {
        Times(|nodes|, base);
        Times(|nodes| - b.nodes, base);
        EndIsIn();
        ghost var more := Extend();
        junk := junk + more;
      }
      NodesForIs(b, need, |nodes|);
    }

    /** Whether the list has somewhere to point. */
    ghost predicate Ready()
      reads `nodes, `repr, `root, `end, `chunks, `at, `cur, `capacity, repr
    {
      this !in repr && Linked() && Filled() && Pointed() && nodes != [] && base >= 1 && capacity == |nodes| * base
    }

    lemma Sized()
      requires Ready()
      ensures |Join(chunks)| == capacity && at < |nodes|
      ensures cur != null && cur in repr && cur.data in repr
    {
      JoinSize(chunks, base);
    }

    lemma Apart()
      requires Ready()
      ensures forall j :: 0 <= j < |nodes| && j != at ==> nodes[j].data != nodes[at].data
    {
    }

    /** memcpy into the chunk of the cursor. */
    method CopyIn(data: array<byte>, o: nat, part: seq<byte>)
      requires Ready() && cur != null && cur.data == data && o + |part| <= base
      modifies this`chunks, data
      ensures Ready() && Pos(at, o, base) + |part| <= |Join(old(chunks))|
      ensures Join(chunks) == Splice(Join(old(chunks)), Pos(at, o, base), part)
    {
      hide Join, After, Pos;
      Apart();
      ghost var was := data[..];
      forall k | 0 <= k < |part| {
        data[o + k] := part[k];
      }
      assert data[..] == Splice(was, o, part);
      JoinSplice(chunks, base, at, o, part);
      chunks := chunks[at := Splice(was, o, part)];
    }

    /** One memcpy of write, with the counters. */
    method CopyPart(buf: seq<byte>, h: nat, m: nat, o: nat, ghost data: seq<byte>, ghost p: nat)
      requires Ready() && o + m <= base && Pos(at, o, base) == p + h && h + m <= |buf|
      requires p + h <= |data| && Join(chunks) == Splice(data, p, buf[..h])
      modifies this`chunks, this`size, this`offset, repr
      ensures Ready() && size == old(size) + m && offset == old(offset) + m
      ensures p + h + m <= |data| && Join(chunks) == Splice(data, p, buf[..h + m])
    {
      hide Join, Linked, Filled, Pointed, Pos;
      Sized();
      CopyIn(cur.data, o, buf[h..h + m]);
      SpliceOn(data, p, buf, h, m);
      size := size + m;
      offset := offset + m;
    }

    /** cur = cur->nxt. */
    method Advance() returns (there: bool)
      requires Ready()
      modifies this`cur, this`at
      ensures there <==> old(at) + 1 < |nodes|
      ensures there ==> Ready() && at == old(at) + 1
    {
      cur := cur.nxt;
      there := cur != null;
      if there {
        at := at + 1;
      }
    }

    /** Where the copy loops start: on a boundary, in the next chunk if there is one. */
    method Enter() returns (o: nat)
      requires Ready()
      modifies this`cur, this`at
      ensures Ready() && o == offset % base < base
      ensures Pos(at, o, base) == Start(old(View()), offset)
    {
      hide Join, Even, Linked, Filled, Pointed, Pos, Start;
      o := offset % base;
      CurNext();
      StartIsPos(View(), offset);
      if o == 0 && offset > 0 && cur.nxt != null {
        var there := Advance();
      }
    }

    lemma CurNext()
      requires Ready()
      ensures base >= 1 && cur != null && cur in repr && (cur.nxt != null <==> at + 1 < |nodes|)
    {
      hide Join, Even, Filled;
    }

    /** The copy loop of write. */
    method WriteLoop(buf: seq<byte>, start: nat) returns (defined: bool)
      requires Ready() && buf != [] && start < base
      modifies this`cur, this`at, this`chunks, this`size, this`offset, repr
      ensures var p := Pos(old(at), start, base);
              && (defined <==> p + |buf| <= |Join(old(chunks))|)
              && (defined ==> Ready() && size == old(size) + |buf| && offset == old(offset) + |buf|
                              && at == Home(p + |buf|, base) && Join(chunks) == Splice(Join(old(chunks)), p, buf))
    {
      hide Join, Linked, Filled, Pointed, Splice, Home, Pos;
      ghost var data, p := Join(chunks), Pos(at, start, base);
      var n: nat, h: nat, o: nat := |buf|, 0, start;
      var rem := base - o;
      Sized();
      PosNext(at, |nodes|, base);
      PosAdds(at, start, base - start, base);
      SpliceNothing(data, p, buf);
      while n > 0
        invariant Ready() && n + h == |buf| && p + h <= |data|
        invariant size == old(size) + h && offset == old(offset) + h
        invariant Join(chunks) == Splice(data, p, buf[..h])
        invariant n > 0 ==> Pos(at, o, base) == p + h && o < base && rem == base - o
        invariant n == 0 ==> at == Home(p + |buf|, base)
        invariant nodes == old(nodes) && repr == old(repr)
      {
        Sized();
        PosAdds(at, o, if n > rem then rem else n, base);
        PosNext(at, |nodes|, base);
        if n > rem {
          CopyPart(buf, h, rem, o, data, p);
          var there := Advance();
          if !there {
            return false;
          }
          h := h + rem;
          n := n - rem;
          rem := base;
          o := 0;
        } else {
          CopyPart(buf, h, n, o, data, p);
          Place(p + |buf|, at, o + n, base);
          h := h + n;
          n := 0;
        }
      }
      assert buf[..|buf|] == buf;
      defined := true;
    }

    method Write(buf: seq<byte>) returns (defined: bool, ghost junk: seq<byte>)
      requires Valid()
      modifies this, repr
      ensures |junk| == if buf == [] then 0 else Shortfall(old(View()), old(View()).size + |buf|)
      ensures endian == old(endian) && fresh(repr - old(repr)) && Wf(old(View()))
      ensures var r := ByteArrays.Write(old(View()), buf, junk);
              (defined <==> r.Ok?) && (defined ==> Valid() && View() == r.after)
    {
      hide Join, Linked, Filled, Even;
      ViewIsWf();
      junk := [];
      if |buf| == 0 {
        return true, junk;
      }
      ghost var b := View();
      junk := AddCapacityTo(size + |buf|);
      Enough(b, b.size + |buf|);
      var o := Enter();
      defined := WriteLoop(buf, o);
      // Both counters moved together, so the closing "if the offset is past the size" never applies.
      assert defined ==> offset <= size;
    }

    /** Where the reading loops start: on a boundary, in the next chunk if there is one. */
    method EnterAt(offset: nat) returns (node: Node, o: nat, ghost i: nat)
      requires Ready()
      ensures i < |nodes| && node == nodes[i] && o == offset % base < base
      ensures Pos(i, o, base) == Start(View(), offset)
    {
      node, o, i := cur, offset % base, at;
      if o == 0 && offset > 0 && node.nxt != null {
        assert node.nxt == After(nodes, i);
        node := node.nxt;
        i := i + 1;
      }
    }

    lemma NextOf(i: nat)
      requires Ready() && i < |nodes|
      ensures nodes[i] in repr && nodes[i].nxt == After(nodes, i)
    {
    }

    lemma SliceAt(i: nat, o: nat, m: nat)
      requires Ready() && i < |nodes| && o + m <= base
      ensures nodes[i] in repr && nodes[i].data.Length == base
      ensures Pos(i, o, base) + m <= |Join(chunks)|
      ensures nodes[i].data[o..o + m] == Join(chunks)[Pos(i, o, base)..Pos(i, o, base) + m]
    {
      hide Join;
      JoinSlice(chunks, base, i, o, m);
      assert nodes[i].data[..] == chunks[i];
      assert nodes[i].data[o..o + m] == nodes[i].data[..][o..o + m];
    }

    /** Two slices, one behind the other. */
    static lemma SliceMore(data: seq<byte>, p: nat, k: nat, m: nat)
      requires p + k + m <= |data|
      ensures data[p..p + k] + data[p + k..p + k + m] == data[p..p + k + m]
    {
    }

    /** The copy loop of both reads. */
    method ReadLoop(node: Node, start: nat, size: nat, ghost i: nat)
      returns (defined: bool, bytes: seq<byte>, last: Node, ghost j: nat)
      requires Ready() && start < base && i < |nodes| && node == nodes[i]
      ensures var p := Pos(i, start, base);
              && (defined <==> p + size <= |Join(chunks)|)
              && (defined ==> j < |nodes| && last == nodes[j] && bytes == Join(chunks)[p..p + size]
                              && j == if size == 0 then p / base else Home(p + size, base))
    {
      hide Join, Linked, Filled, Pointed, Home, Pos;
      ghost var data, p := Join(chunks), Pos(i, start, base);
      var n: nat, o: nat := size, start;
      var rem := base - o;
      last, bytes, j := node, [], i;
      Sized();
      PosNext(j, |nodes|, base);
      PosAdds(j, start, base - start, base);
      PosDiv(j, start, base);
      while n > 0
        invariant n + |bytes| == size && p + |bytes| <= |data| && j < |nodes| && last == nodes[j]
        invariant bytes == data[p..p + |bytes|]
        invariant n > 0 ==> Pos(j, o, base) == p + |bytes| && o < base && rem == base - o
        invariant n == 0 ==> j == if size == 0 then p / base else Home(p + size, base)
      {
        PosAdds(j, o, if n > rem then rem else n, base);
        PosNext(j, |nodes|, base);
        NextOf(j);
        SliceAt(j, o, if n > rem then rem else n);
        SliceMore(data, p, |bytes|, if n > rem then rem else n);
        if n > rem {
          bytes := bytes + last.data[o..o + rem];
          if last.nxt == null {
            return false, bytes, last, j;
          }
          last := last.nxt;
          j := j + 1;
          n := n - rem;
          rem := base;
          o := 0;
        } else {
          bytes := bytes + last.data[o..o + n];
          Place(p + size, j, o + n, base);
          n := 0;
        }
      }
      defined := true;
    }

    /** read: throws when there is too little, else moves the cursor. */
    method Read(n: nat) returns (thrown: bool, defined: bool, bytes: seq<byte>)
      requires Valid()
      modifies this`offset, this`cur, this`at
      ensures Wf(old(View()))
      ensures var r := ByteArrays.Read(old(View()), n);
              && (thrown <==> r.OutOfRange?) && (defined <==> !r.NullDeref?)
              && (thrown ==> Valid() && View() == old(View()))
              && (r.Ok? ==> Valid() && View() == r.after && bytes == r.bytes)
    {
      hide Join, Linked, Filled;
      ViewIsWf();
      RootTells();
      if n > size - offset {
        return true, true, [];
      }
      thrown := false;
      if cur == null {
        return false, false, [];
      }
      var node, o, i := EnterAt(offset);
      var last;
      ghost var j;
      defined, bytes, last, j := ReadLoop(node, o, n, i);
      if defined {
        cur, at, offset := last, j, offset + n;
      }
    }

    /** read at an offset, from the cursor but without moving it. */
    method Peek(n: nat, offset: nat) returns (thrown: bool, defined: bool, bytes: seq<byte>)
      requires Valid()
      ensures Wf(View())
      ensures var r := ByteArrays.Peek(View(), n, offset);
              && (thrown <==> r.OutOfRange?) && (defined <==> !r.NullDeref?) && (r.Ok? ==> bytes == r.bytes)
    {
      hide Join, Linked, Filled;
      ViewIsWf();
      RootTells();
      if n > size - this.offset {
        return true, true, [];
      }
      thrown := false;
      if cur == null {
        return false, false, [];
      }
      var node, o, i := EnterAt(offset);
      var last;
      ghost var j;
      defined, bytes, last, j := ReadLoop(node, o, n, i);
    }

    method ToString() returns (defined: bool, bytes: seq<byte>)
      requires Valid()
      ensures Wf(View())
      ensures var r := ByteArrays.ToString(View());
              && (defined <==> r.Ok?) && (r.Ok? ==> bytes == r.bytes)
    {
      ViewIsWf();
      if size == offset {
        return true, [];
      }
      var thrown;
      thrown, defined, bytes := Peek(size - offset, offset);
    }

    /** From the root, nodeCnt - 1 links on. */
    method Seek(nodeCnt: nat)
      requires Linked() && nodeCnt <= |nodes|
      modifies this`cur, this`at
      ensures Pointed() && at == if nodeCnt == 0 then 0 else nodeCnt - 1
    {
      cur, at := root, 0;
      var i := 1;
      while i < nodeCnt
        invariant Pointed() && i >= 1 && at == i - 1 && (i <= nodeCnt || i == 1)
      {
        assert cur.nxt == After(nodes, at);
        cur, at := cur.nxt, at + 1;
        i := i + 1;
      }
    }

    method SetOffset(offset: nat) returns (thrown: bool)
      requires Valid()
      modifies this`size, this`offset, this`cur, this`at
      ensures Valid() && Wf(old(View()))
      ensures var r := ByteArrays.SetOffset(old(View()), offset);
              && (thrown <==> r.OutOfRange?)
              && View() == if thrown then old(View()) else r.after
    {
      hide Join, Linked, Filled, Even, Pointed, ByteArrays.SetOffset, Wf;
      ViewIsWf();
      JoinIsAll();
      SetOffsetIs(View(), offset);
      if offset > capacity {
        return true;
      }
      thrown := false;
      if offset > size {
        size := offset;
      }
      DivAtMost(offset, |nodes|, base);
      Seek(offset / base);
      this.offset := offset;
    }

    /** writeUint8 to writeUint64 and, on two's complement, writeInt8 to writeInt64. */
    method WriteUint(n: nat, w: nat, host: Endian) returns (defined: bool, ghost junk: seq<byte>)
      requires Valid() && w >= 1
      modifies this, repr
      ensures endian == old(endian) && fresh(repr - old(repr)) && Wf(old(View()))
      ensures |junk| == Shortfall(old(View()), old(View()).size + w)
      ensures var r := ByteArrays.Write(old(View()), EncodeUint(n, w, endian, host), junk);
              (defined <==> r.Ok?) && (defined ==> Valid() && View() == r.after)
    {
      var value := if endian != host then Byteswap(n, w) else n;
      defined, junk := Write(Layout(value, w, host));
    }

    /** writeString16, writeString32, writeString64 and writeStringVint: the length, truncated to w bytes,
        then the text. */
    method WriteString(s: seq<byte>, w: nat, host: Endian) returns (defined: bool, ghost junk: seq<byte>, ghost junk': seq<byte>)
      requires Valid() && w >= 1
      modifies this, repr
      ensures endian == old(endian) && fresh(repr - old(repr)) && Wf(old(View()))
      ensures TwoWrites(old(View()), Prefix(Str(w, s), endian, host), junk, s, junk', defined, View())
      ensures defined ==> Valid()
    {
      hide ByteArrays.Write, Layout, EncodeUint, Shortfall, Linked, Filled, Pointed, Join, Pow256;
      junk' := [];
      defined, junk := WriteUint(|s| % Pow256(w), w, host);
      if defined {
        defined, junk' := Write(s);
      }
    }

    method ReadUint(w: nat, host: Endian) returns (thrown: bool, defined: bool, n: nat)
      requires Valid()
      modifies this`offset, this`cur, this`at
      ensures Wf(old(View()))
      ensures var (r, v) := ByteCodec.ReadUint(old(View()), w, endian, host);
              && (thrown <==> r.OutOfRange?) && (defined <==> !r.NullDeref?)
              && (thrown ==> Valid() && View() == old(View()))
              && (r.Ok? ==> Valid() && View() == r.after && n == v)
    {
      hide ByteArrays.Read;
      var bytes;
      thrown, defined, bytes := Read(w);
      n := 0;
      if !thrown && defined {
        n := FromLayout(bytes, host);
        if endian != host {
          n := Byteswap(n, |bytes|);
        }
      }
    }

    method ReadString(w: nat, host: Endian) returns (thrown: bool, defined: bool, s: seq<byte>)
      requires Valid()
      modifies this`offset, this`cur, this`at
      ensures Wf(old(View()))
      ensures var g := ReadValue(old(View()), Str(w, []), endian, host);
              (!thrown && defined <==> g.Got?) && (g.Got? ==> Valid() && View() == g.after && g.v == Str(w, s))
    {
      hide ByteArrays.Read, DecodeUint;
      var n;
      thrown, defined, n := ReadUint(w, host);
      s := [];
      if !thrown && defined {
        ViewIsWf();
        thrown, defined, s := Read(n);
      }
    }
  }

  lemma DivAtMost(x: nat, n: nat, base: nat)
    requires base >= 1 && x <= n * base
    ensures x / base <= n
  {
    if x == n * base { Times(n, base); DivIs(x, n, base); } else { DivLess(x, n, base); }
  }

  lemma PosDiv(i: nat, o: nat, base: nat)
    requires o < base
    ensures Pos(i, o, base) / base == i
  {
    Times(i, base);
    DivIs(Pos(i, o, base), i, base);
  }

  /** The chunk of the last byte before a position. */
  lemma Place(p: nat, i: nat, o: nat, base: nat)
    requires base >= 1 && p == Pos(i, o, base) && 1 <= o <= base
    ensures Home(p, base) == i
  {
    Times(i, base);
    DivIs(p - 1, i, base);
  }

  lemma PosAdds(i: nat, o: nat, m: nat, base: nat)
    ensures Pos(i, o + m, base) == Pos(i, o, base) + m
  {
  }

  /** The end of a chunk is the start of the next, and the end of the last is the end of all. */
  lemma PosNext(i: nat, n: nat, base: nat)
    requires i < n
    ensures Pos(i, base, base) == Pos(i + 1, 0, base) <= n * base
    ensures i + 1 == n ==> Pos(i, base, base) == n * base
  {
    Times(i, base);
    MulLe(i + 1, n, base);
  }

  lemma SpliceNothing(data: seq<byte>, p: nat, buf: seq<byte>)
    requires p <= |data|
    ensures Splice(data, p, buf[..0]) == data
  {
  }

  lemma SpliceOn(data: seq<byte>, p: nat, buf: seq<byte>, h: nat, m: nat)
    requires h + m <= |buf| && p + h <= |data|
    ensures p + h + m <= |data| ==> Splice(Splice(data, p, buf[..h]), p + h, buf[h..h + m]) == Splice(data, p, buf[..h + m])
  {
    if p + h + m <= |data| {
      assert buf[..h + m] == buf[..h] + buf[h..h + m];
    }
  }

  lemma Times(n: int, base: nat)
    ensures (n + 1) * base == n * base + base
  {
  }

  lemma NodesForIs(b: Bytes, need: nat, n: nat)
    requires 1 <= b.base && n >= (if b.nodes == 0 then 1 else b.nodes) && need <= n * b.base
    requires n == (if b.nodes == 0 then 1 else b.nodes) || n * b.base < need + b.base
    ensures NodesFor(b, need) == n
  {
    var e := (need + b.base - 1) / b.base;
    assert need + b.base - 1 == e * b.base + (need + b.base - 1) % b.base;
    assert (n + 1) * b.base == n * b.base + b.base;
    assert (e + 1) * b.base == e * b.base + b.base;
    if e > n { MulLe(n + 1, e, b.base); }
    if n * b.base < need + b.base && e < n { MulLe(e + 1, n, b.base); }
  }
}
