/**
 The call stack of an interpreted program on a CPU (cpu/src/funcionesCPU.c, funcionesParser.c and
 the main loop of cpu.c): where variables are placed, and calls and returns. The stack pages of a
 process start after its code pages.
 */
module CpuStack {
  import opened Arithmetic
  import opened Lists

  const SIZE := 4  // sizeof(t_puntero)

  datatype Place = Place(page: int, offset: int)
  datatype Variable = Variable(id: char, page: int, offset: int, size: int)
  datatype Context = Context(retPos: int, retVar: Place, retSize: int, args: seq<Variable>, vars: seq<Variable>)

  /** Page size, code pages and stack pages of the process. */
  datatype Config = Config(pageSize: int, code: int, stackPages: int)

  ghost predicate ConfigOk(k: Config) {
    k.pageSize >= SIZE && k.code >= 0 && k.stackPages >= 0
  }

  // ---- where variables are ----

  predicate Le(p: Place, q: Place) {
    p.page < q.page || (p.page == q.page && p.offset <= q.offset)
  }

  function Start(v: Variable): Place {
    Place(v.page, v.offset)
  }

  function End(v: Variable): Place {
    Place(v.page, v.offset + v.size)
  }

  /** Their bytes are disjoint. */
  predicate Apart(v: Variable, w: Variable) {
    Le(End(v), Start(w)) || Le(End(w), Start(v))
  }

  /** A variable lies within one page, not before from. */
  ghost predicate VariableOk(k: Config, v: Variable, from: Place) {
    v.size == SIZE && 0 <= v.offset && v.offset + SIZE <= k.pageSize && v.page >= k.code && Le(from, Start(v))
  }

  /** The variables of a context come in order and apart, after from. */
  ghost predicate ContextOk(k: Config, c: Context, from: Place) {
    && (forall i :: 0 <= i < |c.args| ==> VariableOk(k, c.args[i], from))
    && (forall i :: 0 <= i < |c.vars| ==> VariableOk(k, c.vars[i], from))
    && (forall i, j :: 0 <= i < j < |c.args| ==> Le(End(c.args[i]), Start(c.args[j])))
    && (forall i, j :: 0 <= i < j < |c.vars| ==> Le(End(c.vars[i]), Start(c.vars[j])))
    && (forall i, j :: 0 <= i < |c.args| && 0 <= j < |c.vars| ==> Apart(c.args[i], c.vars[j]))
  }

  ghost predicate Below(c: Context, p: Place) {
    && (forall i :: 0 <= i < |c.args| ==> Le(End(c.args[i]), p))
    && (forall i :: 0 <= i < |c.vars| ==> Le(End(c.vars[i]), p))
  }

  /** Some variable of the context ends at p. */
  ghost predicate Reached(c: Context, p: Place) {
    (exists i :: 0 <= i < |c.args| && End(c.args[i]) == p) || (exists i :: 0 <= i < |c.vars| && End(c.vars[i]) == p)
  }

  // ---- the next free place, as the source looks for it ----

  datatype Found = Found(page: int, offset: int, size: int)

  function Nothing(k: Config): Found {
    Found(k.code, 0, 0)
  }

  function At(v: Variable): Found {
    Found(v.page, v.offset, v.size)
  }

  /** The part of buscoPos_recursiva that looks at one context: its last argument and its last variable. */
  function LastOf(k: Config, c: Context): Found {
    var a := if |c.args| > 0 then At(c.args[|c.args| - 1]) else Nothing(k);
    if |c.vars| == 0 then a
    else
      var v := c.vars[|c.vars| - 1];
      if v.page > a.page then At(v)
      else if v.page < a.page then a
      else if v.offset > a.offset then Found(a.page, v.offset, v.size)
      else if a.size == 0 then Found(a.page, a.offset + v.size, a.size)
      else a
  }

  /** buscoPos_recursiva */
  function Search(k: Config, stack: seq<Context>, sp: int): Found
    requires stack == [] || 0 <= sp < |stack|
    decreases sp
  {
    if stack == [] then Nothing(k)
    else
      var r := LastOf(k, stack[sp]);
      if r != Nothing(k) || sp == 0 then r else Search(k, stack, sp - 1)
  }

  /** getNextPosStack */
  function NextPlace(k: Config, stack: seq<Context>, sp: int): Place
    requires stack == [] || 0 <= sp < |stack|
  {
    var r := Search(k, stack, sp);
    if r.offset + r.size > k.pageSize then Place(r.page + 1, 0) else Place(r.page, r.offset + r.size)
  }

  // ---- the layout ----

  /** The end of the last variable of these contexts. */
  ghost function EndOf(k: Config, stack: seq<Context>): Place {
    if stack == [] then Place(k.code, 0)
    else
      var c := stack[|stack| - 1];
      if c.args == [] && c.vars == [] then EndOf(k, stack[..|stack| - 1])
      else var r := LastOf(k, c); Place(r.page, r.offset + r.size)
  }

  /** Every context starts where the contexts under it end. */
  ghost predicate LayoutOk(k: Config, stack: seq<Context>) {
    stack != [] ==>
      var init := stack[..|stack| - 1];
      LayoutOk(k, init) && ContextOk(k, stack[|stack| - 1], EndOf(k, init))
  }

  /** What the search finds in a context with variables is the greatest end of one of them. */
  lemma {:induction false} LastIsEnd(k: Config, c: Context, from: Place)
    requires ConfigOk(k) && ContextOk(k, c, from) && (c.args != [] || c.vars != [])
    ensures var r := LastOf(k, c);
            var e := Place(r.page, r.offset + r.size);
            r != Nothing(k) && Below(c, e) && Reached(c, e) && e.offset <= k.pageSize && e.page >= k.code && Le(from, e)
  {
    var a, v := |c.args| - 1, |c.vars| - 1;
    assert a >= 0 ==>
           && VariableOk(k, c.args[a], from)
           && forall i :: 0 <= i < |c.args| ==> Le(End(c.args[i]), End(c.args[a]));
    assert v >= 0 ==>
           && VariableOk(k, c.vars[v], from)
           && forall i :: 0 <= i < |c.vars| ==> Le(End(c.vars[i]), End(c.vars[v]));
    assert a >= 0 && v >= 0 ==> Apart(c.args[a], c.vars[v]);
    var r := LastOf(k, c);
    var e := Place(r.page, r.offset + r.size);
    assert (a >= 0 && e == End(c.args[a])) || (v >= 0 && e == End(c.vars[v]));
  }

  /** Every live variable ends at or before the end of the stack, which is inside a stack page or at its end. */
  lemma {:induction false} EndIsLast(k: Config, stack: seq<Context>, i: int)
    requires ConfigOk(k) && LayoutOk(k, stack) && 0 <= i < |stack|
    ensures Below(stack[i], EndOf(k, stack))
    decreases |stack|
  {
    var init, c := stack[..|stack| - 1], stack[|stack| - 1];
    if c.args != [] || c.vars != [] {
      LastIsEnd(k, c, EndOf(k, init));
    }
    if i < |stack| - 1 {
      EndIsLast(k, init, i);
    }
  }

  lemma {:induction false} EndInPage(k: Config, stack: seq<Context>)
    requires ConfigOk(k) && LayoutOk(k, stack)
    ensures 0 <= EndOf(k, stack).offset <= k.pageSize && EndOf(k, stack).page >= k.code
    decreases |stack|
  {
    if stack != [] {
      var init, c := stack[..|stack| - 1], stack[|stack| - 1];
      EndInPage(k, init);
      if c.args != [] || c.vars != [] {
        LastIsEnd(k, c, EndOf(k, init));
      }
    }
  }

  /** The place that getNextPosStack computes is the end of the stack. */
  lemma {:induction false} NextIsEnd(k: Config, stack: seq<Context>, sp: int)
    requires ConfigOk(k) && 0 <= sp < |stack| && LayoutOk(k, stack[..sp + 1])
    ensures NextPlace(k, stack, sp) == EndOf(k, stack[..sp + 1])
    decreases sp
  {
    var top := stack[..sp + 1];
    var init, c := top[..sp], top[sp];
    EndInPage(k, top);
    assert init == stack[..sp];
    if c.args != [] || c.vars != [] {
      LastIsEnd(k, c, EndOf(k, init));
    } else if sp > 0 {
      NextIsEnd(k, stack, sp - 1);
    }
  }

  lemma {:induction false} NextIsEndOfAll(k: Config, stack: seq<Context>)
    requires ConfigOk(k) && LayoutOk(k, stack) && stack != []
    ensures NextPlace(k, stack, |stack| - 1) == EndOf(k, stack)
  {
    assert stack[..|stack|] == stack;
    NextIsEnd(k, stack, |stack| - 1);
  }

  // ---- disjointness ----

  /** All variables of c end before those of d start. */
  ghost predicate Before(c: Context, d: Context) {
    && (forall i, j :: 0 <= i < |c.args| && 0 <= j < |d.args| ==> Le(End(c.args[i]), Start(d.args[j])))
    && (forall i, j :: 0 <= i < |c.args| && 0 <= j < |d.vars| ==> Le(End(c.args[i]), Start(d.vars[j])))
    && (forall i, j :: 0 <= i < |c.vars| && 0 <= j < |d.args| ==> Le(End(c.vars[i]), Start(d.args[j])))
    && (forall i, j :: 0 <= i < |c.vars| && 0 <= j < |d.vars| ==> Le(End(c.vars[i]), Start(d.vars[j])))
  }

  lemma {:induction false} LayoutAt(k: Config, stack: seq<Context>, j: int)
    requires LayoutOk(k, stack) && 0 <= j < |stack|
    ensures LayoutOk(k, stack[..j]) && ContextOk(k, stack[j], EndOf(k, stack[..j]))
    decreases |stack|
  {
    if j < |stack| - 1 {
      LayoutAt(k, stack[..|stack| - 1], j);
      assert stack[..|stack| - 1][..j] == stack[..j];
    }
  }

  /** The variables of a context lie after those of every context under it. */
  lemma {:induction false} ContextsApart(k: Config, stack: seq<Context>, i: int, j: int)
    requires ConfigOk(k) && LayoutOk(k, stack) && 0 <= i < j < |stack|
    ensures Before(stack[i], stack[j])
  {
    LayoutAt(k, stack, j);
    EndIsLast(k, stack[..j], i);
  }

  function Address(k: Config, p: Place): int {
    p.page * k.pageSize + p.offset
  }

  /** getPageofPos and getOffsetofPos */
  function PlaceOf(k: Config, address: int): Place
    requires k.pageSize > 0
  {
    var page := address / k.pageSize;
    Place(page, address - page * k.pageSize)
  }

  /** They give back the place of a variable from its address. */
  lemma {:induction false} AddressRoundTrip(k: Config, v: Variable, from: Place)
    requires ConfigOk(k) && VariableOk(k, v, from)
    ensures PlaceOf(k, Address(k, Start(v))) == Start(v)
  {
    DivMod(v.page, v.offset, k.pageSize);
  }

  /** Apart as places is apart as bytes. */
  lemma {:induction false} AddressesApart(k: Config, v: Variable, w: Variable, from: Place, from': Place)
    requires ConfigOk(k) && VariableOk(k, v, from) && VariableOk(k, w, from') && Le(End(v), Start(w))
    ensures Address(k, Start(v)) + SIZE <= Address(k, Start(w))
  {
    if v.page < w.page {
      Scaled(v.page + 1, w.page, k.pageSize);
      assert (v.page + 1) * k.pageSize == v.page * k.pageSize + k.pageSize;
    }
  }

  // ---- the interpreter as a state machine ----

  const WORD := 0x1_0000         // PC and SP are uint16_t
  const STACK_OVERFLOW := -10    // EC_STACKOVERFLOW
  const ENDS := 6                // OC_TERMINA_PROGRAMA

  datatype Cpu = Cpu(pc: int, sp: int, stack: seq<Context>, next: Place, exit: int)

  datatype Op =
    | Fetch                                // the start of an instruction
    | Define(id: char)                     // definirVariable
    | Call(target: int)                    // llamarSinRetorno, with the line of its label
    | CallFor(target: int, where: int)     // llamarConRetorno
    | Return                               // retornar
    | Finish                               // finalizar
    | Jump(target: int)                    // irAlLabel
    | Advance                              // the end of an instruction

  function Room(k: Config, p: Place): Place {
    if p.offset + SIZE > k.pageSize then Place(p.page + 1, 0) else p
  }

  predicate IsArgument(id: char) {
    '0' <= id <= '9'
  }

  function With(c: Context, v: Variable): Context {
    if IsArgument(v.id) then c.(args := c.args + [v]) else c.(vars := c.vars + [v])
  }

  /** The list in which a variable of this name is. */
  function Named(c: Context, id: char): seq<Variable> {
    if IsArgument(id) then c.args else c.vars
  }

  function Empty(retPos: int, retVar: Place, retSize: int): Context {
    Context(retPos, retVar, retSize, [], [])
  }

  /** What the source needs in order to do it: the context that SP names. */
  predicate Enabled(s: Cpu, op: Op) {
    match op
    case Fetch => s.exit == 0 && if s.stack == [] then s.sp == 0 else 0 <= s.sp < |s.stack|
    case Advance => true
    case _ => s.stack != [] && 0 <= s.sp < |s.stack|
  }

  function Step(k: Config, s: Cpu, op: Op): Cpu
    requires ConfigOk(k) && Enabled(s, op)
  {
    match op
    case Fetch =>
      if s.stack == [] then
        var stack := [Empty(0, Place(0, 0), 0)];
        s.(stack := stack, sp := (s.sp + 1 - 1) % WORD, next := NextPlace(k, stack, 0))
      else s.(next := NextPlace(k, s.stack, s.sp))
    case Define(id) =>
      var p := Room(k, s.next);
      var v := Variable(id, p.page, p.offset, SIZE);
      s.(stack := s.stack[s.sp := With(s.stack[s.sp], v)], next := Place(p.page, p.offset + SIZE),
         exit := if p.page == k.stackPages + k.code then STACK_OVERFLOW else s.exit)
    case Call(target) =>
      s.(stack := s.stack + [Empty(s.pc, Place(0, 0), 0)], sp := (s.sp + 1) % WORD, pc := (target - 1) % WORD)
    case CallFor(target, where) =>
      s.(stack := s.stack + [Empty(s.pc, PlaceOf(k, where), SIZE)], sp := (s.sp + 1) % WORD, pc := (target - 1) % WORD)
    case Return => Popped(s).(pc := s.stack[s.sp].retPos % WORD)
    case Finish => if |s.stack| == 1 then Popped(s).(exit := ENDS) else Popped(s).(pc := s.stack[s.sp].retPos % WORD)
    case Jump(target) => s.(pc := (target - 1) % WORD)
    case Advance => s.(pc := (s.pc + 1) % WORD)
  }

  /** stack_pop */
  function Popped(s: Cpu): Cpu
    requires 0 <= s.sp < |s.stack|
  {
    s.(stack := RemoveAt(s.stack, s.sp), sp := (s.sp - 1) % WORD)
  }

  // ---- what every step keeps ----

  /** No variable of the context is beyond the stack pages. */
  ghost predicate Inside(k: Config, c: Context) {
    && (forall i :: 0 <= i < |c.args| ==> c.args[i].page < k.code + k.stackPages)
    && (forall i :: 0 <= i < |c.vars| ==> c.vars[i].page < k.code + k.stackPages)
  }

  ghost predicate Inv(k: Config, s: Cpu) {
    && LayoutOk(k, s.stack) && 0 <= s.pc < WORD
    && (s.stack != [] ==> s.sp == |s.stack| - 1 < WORD && s.exit != ENDS)
    && (s.stack == [] ==> s.sp == 0 || s.exit == ENDS)
    && (s.stack != [] ==>
         && 0 <= s.next.offset <= k.pageSize && Le(EndOf(k, s.stack), s.next)
         && (s.exit == 0 ==> Le(s.next, Place(k.code + k.stackPages, 0))))
    && (s.exit == 0 ==> forall i :: 0 <= i < |s.stack| ==> Inside(k, s.stack[i]))
  }

  /** A call that SP can count, and a return that is not from the first context. */
  predicate Regular(s: Cpu, op: Op) {
    && (op.Call? || op.CallFor? ==> |s.stack| < WORD)
    && (op.Return? ==> |s.stack| > 1)
  }

  /** A variable placed at or after from, after all others, keeps a context in order and is its new end. */
  lemma {:induction false} WithKeeps(k: Config, c: Context, from: Place, v: Variable)
    requires ConfigOk(k) && ContextOk(k, c, from) && VariableOk(k, v, from) && Below(c, Start(v))
    ensures ContextOk(k, With(c, v), from)
    ensures var r := LastOf(k, With(c, v)); Place(r.page, r.offset + r.size) == End(v)
  {
    var c' := With(c, v);
    assert ContextOk(k, c', from);
    LastIsEnd(k, c', from);
    if IsArgument(v.id) {
      assert c'.args[|c.args|] == v;
      assert Below(c', End(v));
    } else {
      assert c'.vars[|c.vars|] == v;
      assert Below(c', End(v));
    }
  }

  /** Where the new variable goes: after every live variable, within one page. */
  lemma {:induction false} RoomIsFree(k: Config, s: Cpu, id: char)
    requires ConfigOk(k) && Inv(k, s) && s.stack != []
    ensures var n, p := |s.stack| - 1, Room(k, s.next);
            var v, from := Variable(id, p.page, p.offset, SIZE), EndOf(k, s.stack[..n]);
            VariableOk(k, v, from) && Below(s.stack[n], Start(v)) && Le(s.next, Start(v))
  {
    var n := |s.stack| - 1;
    EndIsLast(k, s.stack, n);
    EndInPage(k, s.stack);
    EndInPage(k, s.stack[..n]);
    EndGrows(k, s.stack);
  }

  lemma {:induction false} DefineLayout(k: Config, s: Cpu, id: char)
    requires ConfigOk(k) && Inv(k, s) && s.stack != []
    ensures LayoutOk(k, Step(k, s, Define(id)).stack)
          && EndOf(k, Step(k, s, Define(id)).stack) == Step(k, s, Define(id)).next
  {
    var p := Room(k, s.next);
    var v, n := Variable(id, p.page, p.offset, SIZE), |s.stack| - 1;
    var s' := Step(k, s, Define(id));
    assert s'.stack[..n] == s.stack[..n];
    RoomIsFree(k, s, id);
    WithKeeps(k, s.stack[n], EndOf(k, s.stack[..n]), v);
  }

  lemma {:induction false} DefineKeeps(k: Config, s: Cpu, id: char)
    requires ConfigOk(k) && Inv(k, s) && s.stack != []
    ensures Inv(k, Step(k, s, Define(id)))
  {
    DefineLayout(k, s, id);
    RoomIsFree(k, s, id);
    var s' := Step(k, s, Define(id));
    if s'.exit == 0 {
      assert Inside(k, s'.stack[s.sp]);
    }
  }

  /** The stack ends no earlier than the contexts under its top. */
  lemma {:induction false} EndGrows(k: Config, stack: seq<Context>)
    requires ConfigOk(k) && LayoutOk(k, stack) && stack != []
    ensures Le(EndOf(k, stack[..|stack| - 1]), EndOf(k, stack))
  {
    var init, c := stack[..|stack| - 1], stack[|stack| - 1];
    if c.args != [] || c.vars != [] {
      LastIsEnd(k, c, EndOf(k, init));
    }
  }

  lemma {:induction false} PushKeeps(k: Config, stack: seq<Context>, c: Context)
    requires LayoutOk(k, stack) && c.args == [] && c.vars == []
    ensures LayoutOk(k, stack + [c]) && EndOf(k, stack + [c]) == EndOf(k, stack)
  {
    assert (stack + [c])[..|stack|] == stack;
  }

  lemma {:induction false} PopKeeps(k: Config, s: Cpu)
    requires ConfigOk(k) && Inv(k, s) && s.stack != []
    ensures Popped(s).stack == s.stack[..|s.stack| - 1] && LayoutOk(k, Popped(s).stack)
          && Le(EndOf(k, Popped(s).stack), s.next)
  {
    assert Popped(s).stack == s.stack[..|s.stack| - 1];
    EndGrows(k, s.stack);
  }

  lemma {:induction false} FetchKeeps(k: Config, s: Cpu)
    requires ConfigOk(k) && Inv(k, s) && Enabled(s, Fetch)
    ensures Inv(k, Step(k, s, Fetch)) && Step(k, s, Fetch).next == EndOf(k, Step(k, s, Fetch).stack)
  {
    var s' := Step(k, s, Fetch);
    if s.stack == [] {
      PushKeeps(k, [], Empty(0, Place(0, 0), 0));
      assert s'.stack == [] + [Empty(0, Place(0, 0), 0)];
    }
    NextIsEndOfAll(k, s'.stack);
    EndInPage(k, s'.stack);
  }

  lemma {:induction false} CallKeepsIff(k: Config, s: Cpu, op: Op)
    requires ConfigOk(k) && Inv(k, s) && Enabled(s, op) && (op.Call? || op.CallFor?)
    ensures Inv(k, Step(k, s, op)) <==> Regular(s, op)
  {
    var s' := Step(k, s, op);
    PushKeeps(k, s.stack, s'.stack[|s.stack|]);
  }

  lemma {:induction false} PopKeepsIff(k: Config, s: Cpu, op: Op)
    requires ConfigOk(k) && Inv(k, s) && Enabled(s, op) && (op.Return? || op.Finish?)
    ensures Inv(k, Step(k, s, op)) <==> Regular(s, op)
  {
    PopKeeps(k, s);
  }

  /** Every step keeps the layout, SP and the bounds, except a call that SP cannot count and a return from
      the first context; those two break them. */
  lemma {:induction false} StepKeepsIff(k: Config, s: Cpu, op: Op)
    requires ConfigOk(k) && Inv(k, s) && Enabled(s, op)
    ensures Inv(k, Step(k, s, op)) <==> Regular(s, op)
  {
    match op
    case Fetch => FetchKeeps(k, s);
    case Define(id) => DefineKeeps(k, s, id);
    case Call(_) => CallKeepsIff(k, s, op);
    case CallFor(_, _) => CallKeepsIff(k, s, op);
    case Return => PopKeepsIff(k, s, op);
    case Finish => PopKeepsIff(k, s, op);
    case Jump(_) =>
    case Advance =>
  }

  // ---- runs ----

  /** A run in which every operation is enabled and regular, and starts with more than d contexts. */
  ghost predicate Runs(k: Config, s: Cpu, ops: seq<Op>, d: int)
    requires ConfigOk(k)
    decreases |ops|
  {
    ops != [] ==> Enabled(s, ops[0]) && Regular(s, ops[0]) && |s.stack| > d && Runs(k, Step(k, s, ops[0]), ops[1..], d)
  }

  ghost function Run(k: Config, s: Cpu, ops: seq<Op>, d: int): Cpu
    requires ConfigOk(k) && Runs(k, s, ops, d)
    decreases |ops|
  {
    if ops == [] then s else Run(k, Step(k, s, ops[0]), ops[1..], d)
  }

  lemma {:induction false} RunKeeps(k: Config, s: Cpu, ops: seq<Op>, d: int)
    requires ConfigOk(k) && Inv(k, s) && Runs(k, s, ops, d)
    ensures Inv(k, Run(k, s, ops, d))
    decreases |ops|
  {
    if ops != [] {
      StepKeepsIff(k, s, ops[0]);
      RunKeeps(k, Step(k, s, ops[0]), ops[1..], d);
    }
  }

  /** The first d contexts are the same, and so are the return position and place of the one above them. */
  ghost predicate SameUnder(s: Cpu, t: Cpu, d: int) {
    && 0 <= d < |s.stack| && d <= |t.stack| && t.stack[..d] == s.stack[..d]
    && (d < |t.stack| ==>
         && t.stack[d].retPos == s.stack[d].retPos && t.stack[d].retVar == s.stack[d].retVar
         && t.stack[d].retSize == s.stack[d].retSize)
  }

  lemma {:induction false} StepUnder(k: Config, s: Cpu, op: Op, d: int)
    requires ConfigOk(k) && Inv(k, s) && Enabled(s, op) && 0 <= d < |s.stack|
    ensures SameUnder(s, Step(k, s, op), d)
  {
  }

  lemma {:induction false} RunUnder(k: Config, s: Cpu, ops: seq<Op>, d: int)
    requires ConfigOk(k) && Inv(k, s) && Runs(k, s, ops, d) && 0 <= d < |s.stack| && |Run(k, s, ops, d).stack| > d
    ensures SameUnder(s, Run(k, s, ops, d), d)
    decreases |ops|
  {
    if ops != [] {
      var s' := Step(k, s, ops[0]);
      StepKeepsIff(k, s, ops[0]);
      StepUnder(k, s, ops[0], d);
      if |ops| > 1 || d < |s'.stack| {
        RunUnder(k, s', ops[1..], d);
      }
    }
  }

  /** A call, anything that stays inside it, and its return: stack, SP and PC are the caller's at the call,
      so that the instruction after it comes next, with the caller's next free place. */
  lemma {:induction false} CallAndReturn(k: Config, s: Cpu, call: Op, body: seq<Op>, back: Op)
    requires ConfigOk(k) && Inv(k, s) && (call.Call? || call.CallFor?) && (back.Return? || back.Finish?)
    requires Enabled(s, call) && Regular(s, call) && Runs(k, Step(k, s, call), body, |s.stack|)
    requires |Run(k, Step(k, s, call), body, |s.stack|).stack| == |s.stack| + 1
    ensures var t := Run(k, Step(k, s, call), body, |s.stack|);
            && Enabled(t, back) && Regular(t, back)
            && (call.CallFor? ==> t.stack[t.sp].retVar == PlaceOf(k, call.where) && t.stack[t.sp].retSize == SIZE)
            && var u := Step(k, t, back);
               && u.stack == s.stack && u.sp == s.sp && u.pc == s.pc
               && (u.exit == 0 ==> Enabled(u, Fetch) && Step(k, u, Fetch).next == EndOf(k, s.stack))
  {
    var s1 := Step(k, s, call);
    Called(k, s, call);
    RunKeeps(k, s1, body, |s.stack|);
    RunUnder(k, s1, body, |s.stack|);
    ReturnsTo(k, s, s1, Run(k, s1, body, |s.stack|), back);
  }

  /** A call or jump goes to the line of its label: that is where PC is after the end of the instruction. */
  lemma {:induction false} GoesTo(k: Config, s: Cpu, op: Op)
    requires ConfigOk(k) && Enabled(s, op) && (op.Call? || op.CallFor? || op.Jump?) && 0 <= op.target < 65536
    ensures var s' := Step(k, Step(k, s, op), Advance);
            && s'.pc == op.target && s'.exit == s.exit && s'.next == s.next
            && (op.Jump? ==> s'.stack == s.stack && s'.sp == s.sp)
  {
  }

  /** The end of an instruction moves PC to the next line and changes nothing else. */
  lemma {:induction false} AdvancesByOne(k: Config, s: Cpu)
    requires ConfigOk(k) && 0 <= s.pc < 65536
    ensures Step(k, s, Advance) == s.(pc := if s.pc == 65535 then 0 else s.pc + 1)
  {
  }

  /** After a call that starts at the line of its label, anything inside it and its return, the program goes on
      at the line after that of the call. */
  lemma {:induction false} GoesOnAfterCall(k: Config, s: Cpu, call: Op, body: seq<Op>, back: Op)
    requires ConfigOk(k) && Inv(k, s) && (call.Call? || call.CallFor?) && (back.Return? || back.Finish?)
    requires Enabled(s, call) && Regular(s, call) && 0 <= call.target < 65536
    requires Runs(k, Step(k, s, call), [Advance] + body, |s.stack|)
    requires |Run(k, Step(k, s, call), [Advance] + body, |s.stack|).stack| == |s.stack| + 1
    ensures Step(k, Step(k, s, call), Advance).pc == call.target
    ensures var t := Run(k, Step(k, s, call), [Advance] + body, |s.stack|);
            && Enabled(t, back)
            && Step(k, Step(k, t, back), Advance).pc == (if s.pc == 65535 then 0 else s.pc + 1)
            && Step(k, Step(k, t, back), Advance).stack == s.stack
  {
    GoesTo(k, s, call);
    CallAndReturn(k, s, call, [Advance] + body, back);
  }

  lemma {:induction false} Called(k: Config, s: Cpu, call: Op)
    requires ConfigOk(k) && Inv(k, s) && Enabled(s, call) && (call.Call? || call.CallFor?) && Regular(s, call)
    ensures var s1 := Step(k, s, call);
            && Inv(k, s1) && |s1.stack| == |s.stack| + 1 && s1.stack[..|s.stack|] == s.stack
                && s1.stack[|s.stack|].retPos == s.pc
            && (call.CallFor? ==>
                 && s1.stack[|s.stack|].retVar == PlaceOf(k, call.where)
                 && s1.stack[|s.stack|].retSize == SIZE)
  {
    CallKeepsIff(k, s, call);
  }

  lemma {:induction false} ReturnsTo(k: Config, s: Cpu, s1: Cpu, t: Cpu, back: Op)
    requires ConfigOk(k) && Inv(k, t) && (back.Return? || back.Finish?) && s.stack != [] && s.sp == |s.stack| - 1
          && 0 <= s.pc < WORD
    requires |t.stack| == |s1.stack| == |s.stack| + 1 && s1.stack[..|s.stack|] == s.stack
          && s1.stack[|s.stack|].retPos == s.pc
    requires SameUnder(s1, t, |s.stack|)
    ensures Enabled(t, back) && Regular(t, back)
    ensures var u := Step(k, t, back);
            && u.stack == s.stack && u.sp == s.sp && u.pc == s.pc
            && (u.exit == 0 ==> Enabled(u, Fetch) && Step(k, u, Fetch).next == EndOf(k, s.stack))
  {
    StepKeepsIff(k, t, back);
    var u := Step(k, t, back);
    assert u.stack == t.stack[..|s.stack|];
    if u.exit == 0 {
      FetchKeeps(k, u);
    }
  }

  // ---- the interpreter's functions ----

  /** OC_TERMINA_PROGRAMA, OC_DESCONEX_CPU, OC_ERROR_EJECUCION_CPU, OC_TERMINO_INSTRUCCION */
  datatype Report = ProgramEnds | CpuLeaves | ProgramFails | InstructionEnds

  class Interpreter {
    const k: Config
    var pc: int
    var sp: int
    var stack: seq<Context>
    var next: Place   // nextPageOffsetInStack
    var exit: int

    ghost function Now(): Cpu
      reads this
    {
      Cpu(pc, sp, stack, next, exit)
    }

    /** A program as the kernel creates it. */
    constructor (k: Config)
      requires ConfigOk(k)
      ensures this.k == k && Now() == Cpu(0, 0, [], Place(0, 0), 0) && Inv(k, Now())
    {
      this.k := k;
      pc, sp, stack, next, exit := 0, 0, [], Place(0, 0), 0;
    }

    /** nuevoContexto and stack_push */
    method PushContext(retPos: int, retVar: Place, retSize: int)
      modifies this`stack, this`sp
      ensures stack == old(stack) + [Empty(retPos, retVar, retSize)] && sp == (old(sp) + 1) % WORD
    {
      stack := stack + [Empty(retPos, retVar, retSize)];
      sp := (sp + 1) % WORD;
    }

    method StartInstruction()
      requires ConfigOk(k) && Inv(k, Now()) && Enabled(Now(), Fetch)
      modifies this`stack, this`sp, this`next
      ensures Now() == Step(k, old(Now()), Fetch) && Inv(k, Now()) && next == EndOf(k, stack)
    {
      FetchKeeps(k, Now());
      if stack == [] {
        PushContext(0, Place(0, 0), 0);
        sp := (sp - 1) % WORD;
      }
      next := NextPlace(k, stack, sp);
    }

    /** definirVariable: the address given is 0 exactly when the variable went past the stack pages. */
    method DefineVariable(id: char) returns (address: int)
      requires ConfigOk(k) && Inv(k, Now()) && Enabled(Now(), Define(id))
      modifies this`stack, this`next, this`exit
      ensures Now() == Step(k, old(Now()), Define(id)) && Inv(k, Now())
      ensures old(exit) == 0 ==> (exit == 0 <==> Room(k, old(next)).page < k.code + k.stackPages)
      ensures old(exit) == 0 ==> address == if exit == 0 then Address(k, Room(k, old(next))) else 0
      ensures var fits := old(next).offset + 4 <= k.pageSize;
              var page := if fits then old(next).page else old(next).page + 1;
              var offset := if fits then old(next).offset else 0;
              var c, v := old(stack)[sp], Variable(id, page, offset, 4);
              && next == Place(page, offset + 4)
              && stack == old(stack)[sp := if '0' <= id <= '9' then c.(args := c.args + [v])
                                           else c.(vars := c.vars + [v])]
              && (old(exit) == 0 && exit == 0 ==> address == page * k.pageSize + offset)
    {
      DefineKeeps(k, Now(), id);
      if next.offset + SIZE > k.pageSize {  // updatePageOffsetAvailable
        next := Place(next.page + 1, 0);
      }
      var v := Variable(id, next.page, next.offset, SIZE);
      stack := stack[sp := With(stack[sp], v)];
      next := next.(offset := next.offset + SIZE);
      if v.page == k.stackPages + k.code {
        exit := STACK_OVERFLOW;
        return 0;
      }
      return Address(k, Start(v));
    }

    /** obtenerPosicionVariable: the address of the first variable of that name in the current context. */
    method VariablePosition(id: char) returns (address: int)
      requires 0 <= sp < |stack| && exists i :: 0 <= i < |Named(stack[sp], id)| && Named(stack[sp], id)[i].id == id
      ensures var list := if '0' <= id <= '9' then stack[sp].args else stack[sp].vars;
              exists i :: 0 <= i < |list| && list[i].id == id && (forall j :: 0 <= j < i ==> list[j].id != id)
                && address == list[i].page * k.pageSize + list[i].offset
      ensures exists i :: 0 <= i < |Named(stack[sp], id)| && Named(stack[sp], id)[i].id == id
                && (forall j :: 0 <= j < i ==> Named(stack[sp], id)[j].id != id)
                    && address == Address(k, Start(Named(stack[sp], id)[i]))
    {
      var list, i := Named(stack[sp], id), 0;
      while list[i].id != id
        invariant 0 <= i < |list| && forall j :: 0 <= j < i ==> list[j].id != id
        invariant exists m :: i <= m < |list| && list[m].id == id
        decreases |list| - i
      {
        i := i + 1;
      }
      return Address(k, Start(list[i]));
    }

    /** llamarSinRetorno */
    method CallLabel(target: int)
      requires ConfigOk(k) && Inv(k, Now()) && Enabled(Now(), Call(target))
      modifies this`stack, this`sp, this`pc
      ensures Now() == Step(k, old(Now()), Call(target)) && (Inv(k, Now()) <==> |old(stack)| < WORD)
      ensures |stack| == |old(stack)| + 1 && stack[..|old(stack)|] == old(stack)
      ensures stack[|old(stack)|].retPos == old(pc) && stack[|old(stack)|].args == stack[|old(stack)|].vars == []
      ensures 0 <= target < 65536 ==> pc == if target == 0 then 65535 else target - 1
    {
      CallKeepsIff(k, Now(), Call(target));
      PushContext(pc, Place(0, 0), 0);
      pc := target % WORD;
      pc := (pc - 1) % WORD;
    }

    /** llamarConRetorno */
    method CallLabelFor(target: int, where: int)
      requires ConfigOk(k) && Inv(k, Now()) && Enabled(Now(), CallFor(target, where))
      modifies this`stack, this`sp, this`pc
      ensures Now() == Step(k, old(Now()), CallFor(target, where)) && (Inv(k, Now()) <==> |old(stack)| < WORD)
      ensures |stack| == |old(stack)| + 1 && stack[..|old(stack)|] == old(stack)
      ensures stack[|old(stack)|].retPos == old(pc) && stack[|old(stack)|].args == stack[|old(stack)|].vars == []
      ensures where >= 0 ==> stack[|old(stack)|].retVar == Place(where / k.pageSize, where % k.pageSize)
      ensures stack[|old(stack)|].retSize == 4
      ensures 0 <= target < 65536 ==> pc == if target == 0 then 65535 else target - 1
    {
      CallKeepsIff(k, Now(), CallFor(target, where));
      PushContext(pc, PlaceOf(k, where), SIZE);
      pc := target % WORD;
      pc := (pc - 1) % WORD;
    }

    /** irAlLabel */
    method GoToLabel(target: int)
      requires ConfigOk(k) && Inv(k, Now()) && Enabled(Now(), Jump(target))
      modifies this`pc
      ensures Now() == Step(k, old(Now()), Jump(target)) && Inv(k, Now())
      ensures 0 <= target < 65536 ==> pc == if target == 0 then 65535 else target - 1
    {
      pc := target % WORD;
      pc := (pc - 1) % WORD;
    }

    /** The end of an instruction in the main loop, and what the CPU, which may be asked to leave, then tells the
        kernel. */
    method EndOfInstruction(leaving: bool) returns (tells: Report)
      requires ConfigOk(k) && Inv(k, Now())
      modifies this`pc
      ensures Now() == Step(k, old(Now()), Advance) && Inv(k, Now())
      ensures pc == if old(pc) == 65535 then 0 else old(pc) + 1
      ensures tells.ProgramEnds? <==> exit == 6
      ensures tells.CpuLeaves? <==> exit != 6 && leaving
      ensures tells.ProgramFails? <==> !leaving && exit < 0
    {
      pc := (pc + 1) % WORD;
      tells := if exit == ENDS then ProgramEnds else if leaving then CpuLeaves
               else if exit < 0 then ProgramFails else InstructionEnds;
    }

    /** stack_pop */
    method PopContext() returns (c: Context)
      requires 0 <= sp < |stack|
      modifies this`stack, this`sp
      ensures Now() == Popped(old(Now())) && c == old(stack[sp])
    {
      c := stack[sp];
      stack := RemoveAt(stack, sp);
      sp := (sp - 1) % WORD;
    }

    /** retornar: where the value is written, and how many bytes of it. */
    method ReturnValue() returns (where: Place, size: int)
      requires ConfigOk(k) && Inv(k, Now()) && Enabled(Now(), Return)
      modifies this`stack, this`sp, this`pc
      ensures Now() == Step(k, old(Now()), Return) && (Inv(k, Now()) <==> |old(stack)| > 1)
      ensures where == old(stack[sp]).retVar && size == old(stack[sp]).retSize
    {
      PopKeepsIff(k, Now(), Return);
      var c := PopContext();
      pc := c.retPos % WORD;
      return c.retVar, c.retSize;
    }

    /** finalizar */
    method FinishContext()
      requires ConfigOk(k) && Inv(k, Now()) && Enabled(Now(), Finish)
      modifies this`stack, this`sp, this`pc, this`exit
      ensures Now() == Step(k, old(Now()), Finish) && Inv(k, Now()) && (exit == ENDS <==> stack == [])
    {
      PopKeepsIff(k, Now(), Finish);
      var c := PopContext();
      if |stack| == 0 {
        exit := ENDS;
      } else {
        pc := c.retPos % WORD;
      }
    }
  }
}
