/**
 The process control block as it travels between kernel and CPUs (shared-library/serializar.c):
 nested lists with their lengths in front, and a dictionary of labels in whatever order the
 iterator visits it. The decoders read a buffer from an offset and do not look at its end.
 */
module Serializer {
  import opened Bytes
  import opened Lists

  type Word = x: int | 0 <= x < 0x1_0000                          // uint16_t
  type Int16 = x: int | -0x8000 <= x < 0x8000
  type Int32 = x: int | -0x8000_0000 <= x < 0x8000_0000
  type Label = seq<byte>

  datatype CodeEntry = CodeEntry(offset: Int32, size: Int32)      // t_indice_codigo
  datatype Position = Position(page: Int32, offset: Int32, size: Int32)
  datatype Variable = Variable(id: byte, page: Int32, offset: Int32, size: Int32)  // t_args_vars
  datatype Context = Context(retPos: Int32, retVar: Position, args: seq<Variable>, vars: seq<Variable>)
  datatype Pcb = Pcb(pid: Word, pc: Word, pages: Word, sp: Word, exitCode: Int16,
                     code: seq<CodeEntry>, stack: seq<Context>, labels: map<Label, Int32>)

  const PCB_SIZE := 40  // sizeof(t_PCB) with 8-byte pointers

  /** The counts fit the fields they are sent in, and labels are C strings. */
  ghost predicate Sendable(p: Pcb) {
    && |p.code| < 0x1_0000 && Countable(p.stack) && |p.labels| < 0x1_0000
    && (forall key :: key in p.labels ==> IsLabel(key))
  }

  predicate IsLabel(key: Label) {
    |key| + 1 < 0x1_0000 && 0 !in key
  }

  // ---- integers ----

  function EncodeWord(x: Word): (b: seq<byte>)
    ensures |b| == 2
  {
    ToBytes(x, 2)
  }

  function EncodeShort(x: Int16): (b: seq<byte>)
    ensures |b| == 2
  {
    ToBytes(if x < 0 then x + 0x1_0000 else x, 2)
  }

  function EncodeInt(x: Int32): (b: seq<byte>)
    ensures |b| == 4
  {
    ToBytes(if x < 0 then x + 0x1_0000_0000 else x, 4)
  }

  /** The bytes of data are in buffer from offset on. */
  ghost predicate Holds(buffer: seq<byte>, offset: int, data: seq<byte>) {
    0 <= offset && offset + |data| <= |buffer| && buffer[offset..offset + |data|] == data
  }

  lemma {:induction false} HoldsBoth(buffer: seq<byte>, offset: int, a: seq<byte>, b: seq<byte>)
    requires Holds(buffer, offset, a + b)
    ensures Holds(buffer, offset, a) && Holds(buffer, offset + |a|, b)
  {
    assert buffer[offset..offset + |a|] == (a + b)[..|a|];
    assert buffer[offset + |a|..offset + |a| + |b|] == (a + b)[|a|..];
  }

  method ReadWord(buffer: seq<byte>, offset: int, ghost x: Word) returns (r: Word)
    requires Holds(buffer, offset, EncodeWord(x))
    ensures r == x
  {
    assert Power256(2) == 0x1_0000;
    BytesRoundTrip(x, 2);
    r := FromBytes(buffer[offset..offset + 2]);
  }

  method ReadShort(buffer: seq<byte>, offset: int, ghost x: Int16) returns (r: Int16)
    requires Holds(buffer, offset, EncodeShort(x))
    ensures r == x
  {
    assert Power256(2) == 0x1_0000;
    BytesRoundTrip(if x < 0 then x + 0x1_0000 else x, 2);
    var u := FromBytes(buffer[offset..offset + 2]);
    r := if u >= 0x8000 then u - 0x1_0000 else u;
  }

  method ReadInt(buffer: seq<byte>, offset: int, ghost x: Int32) returns (r: Int32)
    requires Holds(buffer, offset, EncodeInt(x))
    ensures r == x
  {
    assert Power256(4) == 0x1_0000_0000;
    BytesRoundTrip(if x < 0 then x + 0x1_0000_0000 else x, 4);
    var u := FromBytes(buffer[offset..offset + 4]);
    r := if u >= 0x8000_0000 then u - 0x1_0000_0000 else u;
  }

  // ---- lists ----

  /** The encodings of the items one after another. */
  function Concat<T>(items: seq<T>, encode: T -> seq<byte>): seq<byte> {
    if items == [] then [] else encode(items[0]) + Concat(items[1..], encode)
  }

  lemma {:induction false} ConcatAppend<T>(items: seq<T>, x: T, encode: T -> seq<byte>)
    ensures Concat(items + [x], encode) == Concat(items, encode) + encode(x)
  {
    if items == [] {
      assert Concat([x], encode) == encode(x) + Concat([], encode);
    } else {
      assert (items + [x])[1..] == items[1..] + [x];
      ConcatAppend(items[1..], x, encode);
    }
  }

  /** Adding the encoding of item i to those before it. */
  lemma {:induction false} ConcatStep<T>(items: seq<T>, i: int, encode: T -> seq<byte>)
    requires 0 <= i < |items|
    ensures Concat(items[..i + 1], encode) == Concat(items[..i], encode) + encode(items[i])
  {
    assert items[..i + 1] == items[..i] + [items[i]];
    ConcatAppend(items[..i], items[i], encode);
  }

  /** The next item of a list that a decoder is reading. */
  lemma {:induction false} HoldsNext<T>(buffer: seq<byte>, offset: int, items: seq<T>, i: int, encode: T -> seq<byte>)
    requires 0 <= i < |items| && Holds(buffer, offset, Concat(items[i..], encode))
    ensures Holds(buffer, offset, encode(items[i]))
          && Holds(buffer, offset + |encode(items[i])|, Concat(items[i + 1..], encode))
    ensures |Concat(items[i..], encode)| == |encode(items[i])| + |Concat(items[i + 1..], encode)|
  {
    assert items[i..][1..] == items[i + 1..];
    HoldsBoth(buffer, offset, encode(items[i]), Concat(items[i + 1..], encode));
  }

  // ---- the code index ----

  function EncodeEntry(e: CodeEntry): (b: seq<byte>)
    ensures |b| == 8
  {
    EncodeInt(e.offset) + EncodeInt(e.size)
  }

  function EncodeCode(code: seq<CodeEntry>): seq<byte>
    requires |code| < 0x1_0000
  {
    EncodeWord(|code|) + Concat(code, EncodeEntry)
  }

  /** indiceCodigo_serializer */
  method SerializeCode(code: seq<CodeEntry>) returns (data: seq<byte>)
    requires |code| < 0x1_0000
    ensures data == EncodeCode(code)
  {
    data := EncodeWord(|code|);
    for i := 0 to |code|
      invariant data == EncodeWord(|code|) + Concat(code[..i], EncodeEntry)
    {
      ConcatStep(code, i, EncodeEntry);
      data := data + EncodeEntry(code[i]);
    }
    assert code[..|code|] == code;
  }

  method ReadEntry(buffer: seq<byte>, offset: int, ghost e: CodeEntry) returns (r: CodeEntry)
    requires Holds(buffer, offset, EncodeEntry(e))
    ensures r == e
  {
    HoldsBoth(buffer, offset, EncodeInt(e.offset), EncodeInt(e.size));
    var at := ReadInt(buffer, offset, e.offset);
    var size := ReadInt(buffer, offset + 4, e.size);
    r := CodeEntry(at, size);
  }

  method ReadCode(buffer: seq<byte>, start: int, ghost code: seq<CodeEntry>) returns (r: seq<CodeEntry>, offset: int)
    requires |code| < 0x1_0000 && Holds(buffer, start, EncodeCode(code))
    ensures r == code && offset == start + |EncodeCode(code)|
  {
    HoldsBoth(buffer, start, EncodeWord(|code|), Concat(code, EncodeEntry));
    var n := ReadWord(buffer, start, |code|);
    r, offset := [], start + 2;
    assert code[0..] == code;
    for i := 0 to n
      invariant r == code[..i] && Holds(buffer, offset, Concat(code[i..], EncodeEntry))
      invariant offset + |Concat(code[i..], EncodeEntry)| == start + |EncodeCode(code)|
    {
      HoldsNext(buffer, offset, code, i, EncodeEntry);
      var e := ReadEntry(buffer, offset, code[i]);
      r, offset := r + [e], offset + 8;
    }
  }

  // ---- arguments and variables ----

  function EncodeVariable(v: Variable): (b: seq<byte>)
    ensures |b| == 13
  {
    [v.id] + (EncodeInt(v.page) + (EncodeInt(v.offset) + EncodeInt(v.size)))
  }

  function EncodeVariables(vs: seq<Variable>): seq<byte>
    requires |vs| < 0x8000_0000
  {
    EncodeInt(|vs|) + Concat(vs, EncodeVariable)
  }

  /** argsVars_serializer */
  method SerializeVariables(vs: seq<Variable>) returns (data: seq<byte>)
    requires |vs| < 0x8000_0000
    ensures data == EncodeVariables(vs)
  {
    var items := [];
    for i := 0 to |vs|
      invariant items == Concat(vs[..i], EncodeVariable)
    {
      ConcatStep(vs, i, EncodeVariable);
      items := items + EncodeVariable(vs[i]);
    }
    assert vs[..|vs|] == vs;
    data := EncodeInt(|vs|) + items;
  }

  method ReadVariable(buffer: seq<byte>, offset: int, ghost v: Variable) returns (r: Variable)
    requires Holds(buffer, offset, EncodeVariable(v))
    ensures r == v
  {
    HoldsBoth(buffer, offset, [v.id], EncodeInt(v.page) + (EncodeInt(v.offset) + EncodeInt(v.size)));
    HoldsBoth(buffer, offset + 1, EncodeInt(v.page), EncodeInt(v.offset) + EncodeInt(v.size));
    HoldsBoth(buffer, offset + 5, EncodeInt(v.offset), EncodeInt(v.size));
    var page := ReadInt(buffer, offset + 1, v.page);
    var at := ReadInt(buffer, offset + 5, v.offset);
    var size := ReadInt(buffer, offset + 9, v.size);
    assert buffer[offset..offset + 1][0] == v.id;
    r := Variable(buffer[offset], page, at, size);
  }

  method ReadVariables(buffer: seq<byte>, start: int, ghost vs: seq<Variable>) returns (r: seq<Variable>, offset: int)
    requires |vs| < 0x8000_0000 && Holds(buffer, start, EncodeVariables(vs))
    ensures r == vs && offset == start + |EncodeVariables(vs)|
  {
    HoldsBoth(buffer, start, EncodeInt(|vs|), Concat(vs, EncodeVariable));
    var n := ReadInt(buffer, start, |vs|);
    r, offset := [], start + 4;
    assert vs[0..] == vs;
    for i := 0 to n
      invariant r == vs[..i] && Holds(buffer, offset, Concat(vs[i..], EncodeVariable))
      invariant offset + |Concat(vs[i..], EncodeVariable)| == start + |EncodeVariables(vs)|
    {
      HoldsNext(buffer, offset, vs, i, EncodeVariable);
      var v := ReadVariable(buffer, offset, vs[i]);
      r, offset := r + [v], offset + 13;
    }
  }

  // ---- the stack index ----

  function EncodePosition(p: Position): (b: seq<byte>)
    ensures |b| == 12
  {
    EncodeInt(p.page) + (EncodeInt(p.offset) + EncodeInt(p.size))
  }

  ghost predicate Countable(stack: seq<Context>) {
    |stack| < 0x8000_0000 && forall i :: 0 <= i < |stack| ==>
      |stack[i].args| < 0x8000_0000 && |stack[i].vars| < 0x8000_0000
  }

  /** A context whose lists are too long to be counted has no encoding. */
  function EncodeContext(c: Context): seq<byte> {
    if |c.args| < 0x8000_0000 && |c.vars| < 0x8000_0000 then
      EncodeInt(c.retPos) + (EncodePosition(c.retVar) + (EncodeVariables(c.args) + EncodeVariables(c.vars)))
    else []
  }

  function EncodeStack(stack: seq<Context>): seq<byte>
    requires |stack| < 0x8000_0000
  {
    EncodeInt(|stack|) + Concat(stack, EncodeContext)
  }

  /** elementStack_serializer */
  method SerializeContext(c: Context) returns (data: seq<byte>)
    requires |c.args| < 0x8000_0000 && |c.vars| < 0x8000_0000
    ensures data == EncodeContext(c)
  {
    var args := SerializeVariables(c.args);
    var vars := SerializeVariables(c.vars);
    data := EncodeInt(c.retPos) + EncodePosition(c.retVar) + args + vars;
  }

  /** indiceStack_serializer */
  method SerializeStack(stack: seq<Context>) returns (data: seq<byte>)
    requires Countable(stack)
    ensures data == EncodeStack(stack)
  {
    var items := [];
    for i := 0 to |stack|
      invariant items == Concat(stack[..i], EncodeContext)
    {
      ConcatStep(stack, i, EncodeContext);
      var element := SerializeContext(stack[i]);
      items := items + element;
    }
    assert stack[..|stack|] == stack;
    data := EncodeInt(|stack|) + items;
  }

  method ReadPosition(buffer: seq<byte>, offset: int, ghost p: Position) returns (r: Position)
    requires Holds(buffer, offset, EncodePosition(p))
    ensures r == p
  {
    HoldsBoth(buffer, offset, EncodeInt(p.page), EncodeInt(p.offset) + EncodeInt(p.size));
    HoldsBoth(buffer, offset + 4, EncodeInt(p.offset), EncodeInt(p.size));
    var page := ReadInt(buffer, offset, p.page);
    var at := ReadInt(buffer, offset + 4, p.offset);
    var size := ReadInt(buffer, offset + 8, p.size);
    r := Position(page, at, size);
  }

  method ReadContext(buffer: seq<byte>, start: int, ghost c: Context) returns (r: Context, offset: int)
    requires |c.args| < 0x8000_0000 && |c.vars| < 0x8000_0000 && Holds(buffer, start, EncodeContext(c))
    ensures r == c && offset == start + |EncodeContext(c)|
  {
    HoldsBoth(buffer, start, EncodeInt(c.retPos),
         EncodePosition(c.retVar) + (EncodeVariables(c.args) + EncodeVariables(c.vars)));
    HoldsBoth(buffer, start + 4, EncodePosition(c.retVar), EncodeVariables(c.args) + EncodeVariables(c.vars));
    HoldsBoth(buffer, start + 16, EncodeVariables(c.args), EncodeVariables(c.vars));
    var retPos := ReadInt(buffer, start, c.retPos);
    var retVar := ReadPosition(buffer, start + 4, c.retVar);
    var args, vars;
    args, offset := ReadVariables(buffer, start + 16, c.args);
    vars, offset := ReadVariables(buffer, offset, c.vars);
    r := Context(retPos, retVar, args, vars);
  }

  method ReadNext(buffer: seq<byte>, offset: int, ghost stack: seq<Context>, ghost i: int)
      returns (c: Context, next: int)
    requires Countable(stack) && 0 <= i < |stack| && Holds(buffer, offset, Concat(stack[i..], EncodeContext))
    ensures c == stack[i] && Holds(buffer, next, Concat(stack[i + 1..], EncodeContext))
    ensures next + |Concat(stack[i + 1..], EncodeContext)| == offset + |Concat(stack[i..], EncodeContext)|
  {
    HoldsNext(buffer, offset, stack, i, EncodeContext);
    c, next := ReadContext(buffer, offset, stack[i]);
  }

  method ReadStack(buffer: seq<byte>, start: int, ghost stack: seq<Context>) returns (r: seq<Context>, offset: int)
    requires Countable(stack) && Holds(buffer, start, EncodeStack(stack))
    ensures r == stack && offset == start + |EncodeStack(stack)|
  {
    HoldsBoth(buffer, start, EncodeInt(|stack|), Concat(stack, EncodeContext));
    var n := ReadInt(buffer, start, |stack|);
    r, offset := [], start + 4;
    assert stack[0..] == stack;
    for i := 0 to n
      invariant r == stack[..i] && Holds(buffer, offset, Concat(stack[i..], EncodeContext))
      invariant offset + |Concat(stack[i..], EncodeContext)| == start + |EncodeStack(stack)|
    {
      var c;
      c, offset := ReadNext(buffer, offset, stack, i);
      r := r + [c];
    }
  }

  // ---- labels ----

  datatype Pair = Pair(key: Label, value: Int32)

  /** The key goes with its terminator, which its length counts. */
  function EncodePair(p: Pair): seq<byte> {
    if IsLabel(p.key) then EncodeWord(|p.key| + 1) + (p.key + ([0] + EncodeInt(p.value))) else []
  }

  function EncodeLabels(order: seq<Pair>): seq<byte>
    requires |order| < 0x1_0000
  {
    EncodeWord(|order|) + Concat(order, EncodePair)
  }

  /** order visits every label of the dictionary once. */
  ghost predicate Visits(order: seq<Pair>, labels: map<Label, Int32>) {
    && |order| == |labels|
    && (forall i :: 0 <= i < |order| ==> order[i].key in labels && labels[order[i].key] == order[i].value)
    && (forall key :: key in labels ==> exists i :: 0 <= i < |order| && order[i].key == key)
  }

  /** indiceEtiquetas_serializer, where dictionary_iterator visits the labels in this order. */
  method SerializeLabels(order: seq<Pair>) returns (data: seq<byte>)
    requires |order| < 0x1_0000 && forall i :: 0 <= i < |order| ==> IsLabel(order[i].key)
    ensures data == EncodeLabels(order)
  {
    var items := [];
    for i := 0 to |order|
      invariant items == Concat(order[..i], EncodePair)
    {
      ConcatStep(order, i, EncodePair);
      var p := order[i];
      var item := EncodeWord(|p.key| + 1) + p.key + [0] + EncodeInt(p.value);
      assert item == EncodePair(p);
      items := items + item;
    }
    assert order[..|order|] == order;
    data := EncodeWord(|order|) + items;
  }

  /** string_append from the buffer: the bytes up to the first NUL. */
  method ReadString(buffer: seq<byte>, offset: int, ghost key: Label) returns (r: Label)
    requires 0 !in key && Holds(buffer, offset, key + [0])
    ensures r == key
  {
    HoldsBoth(buffer, offset, key, [0]);
    ghost var nul: seq<byte> := [0];
    assert buffer[offset + |key|..offset + |key| + 1] == nul && nul[0] == 0;
    assert forall k :: 0 <= k < |key| ==> buffer[offset..offset + |key|][k] == key[k];
    r := [];
    while buffer[offset + |r|] != 0
      invariant |r| <= |key| && r == key[..|r|]
      decreases |key| - |r|
    {
      r := r + [buffer[offset + |r|]];
    }
    assert r == key;
  }

  method ReadPair(buffer: seq<byte>, start: int, ghost p: Pair) returns (r: Pair, offset: int)
    requires IsLabel(p.key) && Holds(buffer, start, EncodePair(p))
    ensures r == p && offset == start + |EncodePair(p)|
  {
    HoldsBoth(buffer, start, EncodeWord(|p.key| + 1), p.key + ([0] + EncodeInt(p.value)));
    assert p.key + ([0] + EncodeInt(p.value)) == (p.key + [0]) + EncodeInt(p.value);
    HoldsBoth(buffer, start + 2, p.key + [0], EncodeInt(p.value));
    var length := ReadWord(buffer, start, |p.key| + 1);
    var key := ReadString(buffer, start + 2, p.key);
    var value := ReadInt(buffer, start + 2 + length, p.value);
    r, offset := Pair(key, value), start + 2 + length + 4;
  }

  /** The decoder's dictionary is the one that was sent, whatever the order. */
  method ReadLabels(buffer: seq<byte>, start: int, ghost order: seq<Pair>, ghost labels: map<Label, Int32>)
      returns (r: map<Label, Int32>)
    requires |order| < 0x1_0000 && (forall i :: 0 <= i < |order| ==> IsLabel(order[i].key)) && Visits(order, labels)
    requires Holds(buffer, start, EncodeLabels(order))
    ensures r == labels
  {
    HoldsBoth(buffer, start, EncodeWord(|order|), Concat(order, EncodePair));
    var n := ReadWord(buffer, start, |order|);
    var offset := start + 2;
    r := map[];
    assert order[0..] == order;
    for i := 0 to n
      invariant Holds(buffer, offset, Concat(order[i..], EncodePair))
      invariant forall key :: key in r ==> key in labels && labels[key] == r[key]
      invariant forall j :: 0 <= j < i ==> order[j].key in r
    {
      var p;
      p, offset := ReadNextPair(buffer, offset, order, i);
      r := r[p.key := p.value];
    }
  }

  method ReadNextPair(buffer: seq<byte>, offset: int, ghost order: seq<Pair>, ghost i: int) returns (p: Pair, next: int)
    requires 0 <= i < |order| && IsLabel(order[i].key) && Holds(buffer, offset, Concat(order[i..], EncodePair))
    ensures p == order[i] && Holds(buffer, next, Concat(order[i + 1..], EncodePair))
  {
    HoldsNext(buffer, offset, order, i, EncodePair);
    p, next := ReadPair(buffer, offset, order[i]);
  }

  // ---- what is where ----

  /** Words and numbers go least significant byte first, negative ones in two's complement. */
  lemma {:induction false} NumberBytes(w: Word, s: Int16, x: Int32)
    ensures EncodeWord(w) == [w % 256, w / 256]
    ensures var u := if s < 0 then s + 0x1_0000 else s; EncodeShort(s) == [u % 256, u / 256]
    ensures var u := if x < 0 then x + 0x1_0000_0000 else x;
            EncodeInt(x) == [u % 256, u / 0x100 % 256, u / 0x1_0000 % 256, u / 0x100_0000]
  {
    TwoBytes(w);
    TwoBytes(if s < 0 then s + 0x1_0000 else s);
    FourBytes(if x < 0 then x + 0x1_0000_0000 else x);
  }

  /** Items of w bytes each follow one another. */
  lemma {:induction false} Strides<T>(items: seq<T>, encode: T -> seq<byte>, w: nat, i: nat)
    requires (forall x :: |encode(x)| == w) && i <= |items|
    ensures |Concat(items, encode)| == w * |items|
    ensures 0 <= w * i <= w * |items|
    ensures i < |items| ==> w * i + w <= w * |items| && Concat(items, encode)[w * i..w * i + w] == encode(items[i])
  {
    if items != [] {
      Strides(items[1..], encode, w, if i == 0 then 0 else i - 1);
      assert w * |items| == w + w * (|items| - 1);
      if i > 0 {
        assert w * i == w + w * (i - 1);
        if i < |items| {
          assert Concat(items, encode)[w * i..w * i + w]
              == Concat(items[1..], encode)[w * (i - 1)..w * (i - 1) + w];
        }
      }
    }
  }

  /** Two bytes count the code index, whose entries are eight bytes each: offset, then size. */
  lemma {:induction false} CodeBytes(code: seq<CodeEntry>, i: nat)
    requires |code| < 0x1_0000 && i < |code|
    ensures |EncodeCode(code)| == 2 + 8 * |code| && EncodeCode(code)[..2] == EncodeWord(|code|)
    ensures EncodeCode(code)[2 + 8 * i..2 + 8 * i + 4] == EncodeInt(code[i].offset)
    ensures EncodeCode(code)[2 + 8 * i + 4..2 + 8 * i + 8] == EncodeInt(code[i].size)
  {
    Strides(code, EncodeEntry, 8, i);
    var entry := EncodeCode(code)[2 + 8 * i..2 + 8 * i + 8];
    assert entry == Concat(code, EncodeEntry)[8 * i..8 * i + 8] == EncodeEntry(code[i]);
    assert EncodeCode(code)[2 + 8 * i..2 + 8 * i + 4] == entry[..4];
    assert EncodeCode(code)[2 + 8 * i + 4..2 + 8 * i + 8] == entry[4..];
  }

  /** Four bytes count arguments or variables, of 13 bytes each: name, page, offset, size. */
  lemma {:induction false} VariableBytes(vs: seq<Variable>, i: nat)
    requires |vs| < 0x8000_0000 && i < |vs|
    ensures |EncodeVariables(vs)| == 4 + 13 * |vs| && EncodeVariables(vs)[..4] == EncodeInt(|vs|)
    ensures var at := 4 + 13 * i;
            && EncodeVariables(vs)[at] == vs[i].id && EncodeVariables(vs)[at + 1..at + 5] == EncodeInt(vs[i].page)
            && EncodeVariables(vs)[at + 5..at + 9] == EncodeInt(vs[i].offset)
            && EncodeVariables(vs)[at + 9..at + 13] == EncodeInt(vs[i].size)
  {
    Strides(vs, EncodeVariable, 13, i);
    var at := 4 + 13 * i;
    var item := EncodeVariables(vs)[at..at + 13];
    assert item == Concat(vs, EncodeVariable)[13 * i..13 * i + 13] == EncodeVariable(vs[i]);
    assert EncodeVariables(vs)[at + 1..at + 5] == item[1..5];
    assert EncodeVariables(vs)[at + 5..at + 9] == item[5..9];
    assert EncodeVariables(vs)[at + 9..at + 13] == item[9..13];
    assert EncodeVariables(vs)[at] == item[0];
  }

  lemma {:induction false} VariablesLength(vs: seq<Variable>)
    requires |vs| < 0x8000_0000
    ensures |EncodeVariables(vs)| == 4 + 13 * |vs|
  {
    Strides(vs, EncodeVariable, 13, 0);
  }

  /** A context is its return line, the page, offset and size of its result, its arguments and its variables. */
  lemma {:induction false} ContextBytes(c: Context)
    requires |c.args| < 0x8000_0000 && |c.vars| < 0x8000_0000
    ensures |EncodeContext(c)| == 24 + 13 * |c.args| + 13 * |c.vars|
    ensures var b := EncodeContext(c);
            && b[..4] == EncodeInt(c.retPos) && b[4..8] == EncodeInt(c.retVar.page)
            && b[8..12] == EncodeInt(c.retVar.offset) && b[12..16] == EncodeInt(c.retVar.size)
            && b[16..20 + 13 * |c.args|] == EncodeVariables(c.args)
            && b[20 + 13 * |c.args|..] == EncodeVariables(c.vars)
  {
    VariablesLength(c.args);
    VariablesLength(c.vars);
    var b, rest := EncodeContext(c), EncodeVariables(c.args) + EncodeVariables(c.vars);
    assert b == EncodeInt(c.retPos) + EncodePosition(c.retVar) + EncodeVariables(c.args) + EncodeVariables(c.vars);
    assert b[4..16] == EncodePosition(c.retVar);
    assert b[4..8] == b[4..16][..4] && b[8..12] == b[4..16][4..8] && b[12..16] == b[4..16][8..12];
  }

  /** A label is the length of its key with the terminator, the key, the terminator and its line. */
  lemma {:induction false} PairBytes(p: Pair)
    requires IsLabel(p.key)
    ensures var b, n := EncodePair(p), |p.key|;
            && |b| == n + 7 && b[..2] == EncodeWord(n + 1) && b[2..2 + n] == p.key && b[2 + n] == 0
            && b[3 + n..] == EncodeInt(p.value)
  {
  }

  /** The block is pid, PC, pages, SP and exit code, two bytes each, then the code index, the stack index and the
      labels, each with its count. */
  lemma {:induction false} PcbBytes(p: Pcb, order: seq<Pair>)
    requires |p.code| < 0x1_0000 && |p.stack| < 0x8000_0000 && |order| < 0x1_0000
    ensures var b, stack := EncodePcb(p, order), 12 + 8 * |p.code|;
            && |b| >= stack && b[..2] == EncodeWord(p.pid) && b[2..4] == EncodeWord(p.pc)
            && b[4..6] == EncodeWord(p.pages) && b[6..8] == EncodeWord(p.sp) && b[8..10] == EncodeShort(p.exitCode)
            && b[10..stack] == EncodeCode(p.code)
            && b[stack..] == EncodeInt(|p.stack|) + Concat(p.stack, EncodeContext)
                             + (EncodeWord(|order|) + Concat(order, EncodePair))
  {
    Strides(p.code, EncodeEntry, 8, 0);
    var b := EncodePcb(p, order);
    assert b == EncodeHeader(p) + EncodeCode(p.code) + (EncodeStack(p.stack) + EncodeLabels(order));
    assert b[..10] == EncodeHeader(p);
    assert b[..2] == EncodeHeader(p)[..2] && b[2..4] == EncodeHeader(p)[2..4] && b[4..6] == EncodeHeader(p)[4..6];
    assert b[6..8] == EncodeHeader(p)[6..8] && b[8..10] == EncodeHeader(p)[8..10];
  }

  // ---- the whole block ----

  function EncodeHeader(p: Pcb): (b: seq<byte>)
    ensures |b| == 10
  {
    EncodeWord(p.pid) + (EncodeWord(p.pc) + (EncodeWord(p.pages) + (EncodeWord(p.sp) + EncodeShort(p.exitCode))))
  }

  function EncodePcb(p: Pcb, order: seq<Pair>): seq<byte>
    requires |p.code| < 0x1_0000 && |p.stack| < 0x8000_0000 && |order| < 0x1_0000
  {
    EncodeHeader(p) + (EncodeCode(p.code) + (EncodeStack(p.stack) + EncodeLabels(order)))
  }

  /** pcb_serializer: slack stands for what the allocated bytes after the encoding hold. */
  method Serialize(p: Pcb, order: seq<Pair>, slack: byte) returns (data: seq<byte>, length: int)
    requires Sendable(p) && Visits(order, p.labels)
    ensures |order| < 0x1_0000 && |data| == length == |EncodePcb(p, order)| + 34
          && Holds(data, 0, EncodePcb(p, order))
  {
    var code := SerializeCode(p.code);
    var stack := SerializeStack(p.stack);
    var labels := SerializeLabels(order);
    length := 4 + PCB_SIZE + |code| + |stack| + |labels|;
    data := SerializeHeader(p);
    InARow(data, code, stack, labels);
    data := data + code + stack + labels;
    ghost var encoded := EncodePcb(p, order);
    assert data == encoded;
    data := data + seq(length - |data|, _ => slack);
    assert data[..|encoded|] == encoded;
  }

  lemma {:induction false} InARow(a: seq<byte>, b: seq<byte>, c: seq<byte>, d: seq<byte>)
    ensures a + b + c + d == a + (b + (c + d))
  {
  }

  method SerializeHeader(p: Pcb) returns (data: seq<byte>)
    ensures data == EncodeHeader(p)
  {
    data := EncodeWord(p.pid) + EncodeWord(p.pc) + EncodeWord(p.pages) + EncodeWord(p.sp) + EncodeShort(p.exitCode);
  }

  method ReadHeader(buffer: seq<byte>, ghost p: Pcb)
      returns (pid: Word, pc: Word, pages: Word, sp: Word, exitCode: Int16)
    requires Holds(buffer, 0, EncodeHeader(p))
    ensures pid == p.pid && pc == p.pc && pages == p.pages && sp == p.sp && exitCode == p.exitCode
  {
    var d := EncodeWord(p.sp) + EncodeShort(p.exitCode);
    var c := EncodeWord(p.pages) + d;
    var b := EncodeWord(p.pc) + c;
    HoldsBoth(buffer, 0, EncodeWord(p.pid), b);
    HoldsBoth(buffer, 2, EncodeWord(p.pc), c);
    HoldsBoth(buffer, 4, EncodeWord(p.pages), d);
    HoldsBoth(buffer, 6, EncodeWord(p.sp), EncodeShort(p.exitCode));
    pid := ReadWord(buffer, 0, p.pid);
    pc := ReadWord(buffer, 2, p.pc);
    pages := ReadWord(buffer, 4, p.pages);
    sp := ReadWord(buffer, 6, p.sp);
    exitCode := ReadShort(buffer, 8, p.exitCode);
  }

  /** Where the parts of a block are. */
  lemma {:induction false} Parts(buffer: seq<byte>, p: Pcb, order: seq<Pair>)
    requires |p.code| < 0x1_0000 && |p.stack| < 0x8000_0000 && |order| < 0x1_0000
          && Holds(buffer, 0, EncodePcb(p, order))
    ensures Holds(buffer, 0, EncodeHeader(p)) && Holds(buffer, 10, EncodeCode(p.code))
    ensures Holds(buffer, 10 + |EncodeCode(p.code)|, EncodeStack(p.stack))
    ensures Holds(buffer, 10 + |EncodeCode(p.code)| + |EncodeStack(p.stack)|, EncodeLabels(order))
  {
    var rest := EncodeStack(p.stack) + EncodeLabels(order);
    HoldsBoth(buffer, 0, EncodeHeader(p), EncodeCode(p.code) + rest);
    HoldsBoth(buffer, 10, EncodeCode(p.code), rest);
    HoldsBoth(buffer, 10 + |EncodeCode(p.code)|, EncodeStack(p.stack), EncodeLabels(order));
  }

  /** deserializer_pcb on any buffer that starts with the encoding of a block gives that block. */
  method Deserialize(buffer: seq<byte>, ghost p: Pcb, ghost order: seq<Pair>) returns (r: Pcb)
    requires Sendable(p) && Visits(order, p.labels) && Holds(buffer, 0, EncodePcb(p, order))
    ensures r == p
  {
    Parts(buffer, p, order);
    var pid, pc, pages, sp, exitCode := ReadHeader(buffer, p);
    var code, at := ReadCode(buffer, 10, p.code);
    var stack, at' := ReadStack(buffer, at, p.stack);
    var labels := ReadLabels(buffer, at', order, p.labels);
    r := Pcb(pid, pc, pages, sp, exitCode, code, stack, labels);
  }

  /** A block sent and received is the same block. */
  method Transfer(p: Pcb, order: seq<Pair>, slack: byte) returns (r: Pcb)
    requires Sendable(p) && Visits(order, p.labels)
    ensures r == p
  {
    var data, length := Serialize(p, order, slack);
    r := Deserialize(data, p, order);
  }
}
