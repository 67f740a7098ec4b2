/** The laws that the theorems assume of the JSON codec hold of an instance: texts that are programs of a
    small stack machine, which builds the value. */
module Consistency {
  import opened Wrappers
  import opened Json
  import opened Crypto

  predicate IsChar(n: int) {
    0 <= n < 0xD800 || 0xE000 <= n < 0x11_0000
  }

  function Below(stack: seq<Json>): Json {
    if |stack| > 1 then stack[1] else Null
  }

  /** One instruction: push a constant, step a number, or move the top into the value below it. */
  function Execute(op: byte, stack: seq<Json>): seq<Json> {
    var top, below := if stack == [] then Null else stack[0], Below(stack);
    match op
    case 1 => [Null] + stack
    case 2 => [Bool(false)] + stack
    case 3 => [Bool(true)] + stack
    case 4 => [Int(0)] + stack
    case 5 => if top.Int? then [Int(top.n + 1)] + stack[1..] else stack
    case 6 => if top.Int? then [Int(top.n - 1)] + stack[1..] else stack
    case 7 => [Str("")] + stack
    case 8 => if top.Int? && IsChar(top.n) && below.Str? then [Str(below.s + [top.n as char])] + stack[2..] else stack
    case 9 => [Arr([])] + stack
    case 10 => if below.Arr? then [Arr(below.elems + [top])] + stack[2..] else stack
    case 11 => [Obj(map[])] + stack
    case 12 =>
      if |stack| > 2 && below.Str? && stack[2].Obj? then [Obj(stack[2].members[below.s := top])] + stack[3..] else stack
    case _ => stack
  }

  function Run(program: bytes, stack: seq<Json>): seq<Json> {
    if program == [] then stack else Run(program[1..], Execute(program[0], stack))
  }

  function Load(program: bytes): Option<Json> {
    var stack := Run(program, []);
    if stack == [] then None else Some(stack[0])
  }

  /** The program has no NUL and pushes the value on any stack. */
  ghost predicate Builds(program: bytes, j: Json) {
    0 !in program && forall stack :: Run(program, stack) == [j] + stack
  }

  lemma {:induction false} RunAppend(a: bytes, b: bytes, stack: seq<Json>)
    ensures Run(a + b, stack) == Run(b, Run(a, stack))
  {
    hide Execute;
    if a == [] {
      assert a + b == b;
    } else {
      assert (a + b)[1..] == a[1..] + b;
      RunAppend(a[1..], b, Execute(a[0], stack));
    }
  }

  lemma RunOne(op: byte, stack: seq<Json>)
    ensures Run([op], stack) == Execute(op, stack)
  {
    hide Execute;
    assert [op][1..] == [];
  }

  /** One more instruction, which turns j on top of any stack into j'. */
  lemma Then(program: bytes, j: Json, op: byte, j': Json)
    requires Builds(program, j) && op != 0 && forall stack :: Execute(op, [j] + stack) == [j'] + stack
    ensures Builds(program + [op], j')
  {
    hide Execute, Run;
    forall stack
      ensures Run(program + [op], stack) == [j'] + stack
    {
      RunAppend(program, [op], stack);
      RunOne(op, [j] + stack);
    }
  }

  lemma Push(op: byte, j: Json)
    requires op != 0 && forall stack :: Execute(op, stack) == [j] + stack
    ensures Builds([op], j)
  {
    hide Execute, Run;
    forall stack
      ensures Run([op], stack) == [j] + stack
    {
      RunOne(op, stack);
    }
  }

  /** A second value, which an instruction moves into the first. */
  lemma Combine(first: bytes, j: Json, second: bytes, k: Json, op: byte, j': Json)
    requires Builds(first, j) && Builds(second, k) && op != 0
    requires forall stack :: Execute(op, [k] + ([j] + stack)) == [j'] + stack
    ensures Builds(first + second + [op], j')
  {
    hide Execute, Run;
    forall stack
      ensures Run(first + second + [op], stack) == [j'] + stack
    {
      RunAppend(first + second, [op], stack);
      RunAppend(first, second, stack);
      RunOne(op, [k] + ([j] + stack));
    }
  }

  lemma {:induction false} IntProgram(n: int) returns (program: bytes)
    ensures Builds(program, Int(n))
    decreases if n < 0 then -n else n
  {
    hide Builds, Run;
    if n == 0 {
      program := [4];
      Push(4, Int(0));
    } else if n > 0 {
      var before := IntProgram(n - 1);
      program := before + [5];
      assert forall stack :: Execute(5, [Int(n - 1)] + stack) == [Int(n)] + stack;
      Then(before, Int(n - 1), 5, Int(n));
    } else {
      var before := IntProgram(n + 1);
      program := before + [6];
      assert forall stack :: Execute(6, [Int(n + 1)] + stack) == [Int(n)] + stack;
      Then(before, Int(n + 1), 6, Int(n));
    }
  }

  lemma {:induction false} StrProgram(s: string) returns (program: bytes)
    ensures Builds(program, Str(s))
  {
    hide Builds, Run;
    if s == "" {
      program := [7];
      Push(7, Str(""));
    } else {
      var init, c := s[..|s| - 1], s[|s| - 1];
      var before := StrProgram(init);
      var code := IntProgram(c as int);
      program := before + code + [8];
      assert init + [c] == s;
      assert forall stack :: Execute(8, [Int(c as int)] + ([Str(init)] + stack)) == [Str(s)] + stack;
      Combine(before, Str(init), code, Int(c as int), 8, Str(s));
    }
  }

  lemma {:induction false} ArrProgram(elems: seq<Json>) returns (program: bytes)
    ensures Builds(program, Arr(elems))
    decreases elems, 0
  {
    hide Builds, Run;
    if elems == [] {
      program := [9];
      Push(9, Arr([]));
    } else {
      var init, last := elems[..|elems| - 1], elems[|elems| - 1];
      var before := ArrProgram(init);
      var item := Program(last);
      program := before + item + [10];
      assert init + [last] == elems;
      assert forall stack :: Execute(10, [last] + ([Arr(init)] + stack)) == [Arr(elems)] + stack;
      Combine(before, Arr(init), item, last, 10, Arr(elems));
    }
  }

  function Part(o: Object, keys: set<string>): Object {
    map k | k in o && k in keys :: o[k]
  }

  /** The members of an object, in any order: the machine's objects are maps. */
  lemma {:induction false} ObjProgram(whole: Json, keys: set<string>) returns (program: bytes)
    requires whole.Obj? && keys <= whole.members.Keys
    ensures Builds(program, Obj(Part(whole.members, keys)))
    decreases whole, 0, keys
  {
    hide Builds, Run;
    if keys == {} {
      program := [11];
      assert Part(whole.members, keys) == map[];
      Push(11, Obj(map[]));
    } else {
      var key :| key in keys;
      var some, all := Part(whole.members, keys - {key}), Part(whole.members, keys);
      var value := whole.members[key];
      var before := ObjProgram(whole, keys - {key});
      var name := StrProgram(key);
      var member := Program(value);
      assert some[key := value] == all;
      program := before + name + member + [12];
      AddMember(before, some, name, key, member, value, all);
    }
  }

  lemma AddMember(before: bytes, some: Object, name: bytes, key: string, member: bytes, value: Json, all: Object)
    requires Builds(before, Obj(some)) && Builds(name, Str(key)) && Builds(member, value) && some[key := value] == all
    ensures Builds(before + name + member + [12], Obj(all))
  {
    hide Execute, Run;
    forall stack
      ensures Run(before + name + member + [12], stack) == [Obj(all)] + stack
    {
      RunAppend(before + name + member, [12], stack);
      RunAppend(before + name, member, stack);
      RunAppend(before, name, stack);
      RunOne(12, [value] + ([Str(key)] + ([Obj(some)] + stack)));
      MemberStep(some, key, value, all, stack);
    }
  }

  lemma MemberStep(some: Object, key: string, value: Json, all: Object, stack: seq<Json>)
    requires some[key := value] == all
    ensures Execute(12, [value] + ([Str(key)] + ([Obj(some)] + stack))) == [Obj(all)] + stack
  {
    var top := [value] + ([Str(key)] + ([Obj(some)] + stack));
    assert top[1] == Str(key) && top[2] == Obj(some) && top[3..] == stack;
  }

  /** Every JSON value has a text. */
  lemma {:induction false} Program(j: Json) returns (program: bytes)
    ensures Builds(program, j)
    decreases j, 1
  {
    hide Builds, Run;
    match j
    case Null => program := [1]; Push(1, Null);
    case Bool(b) => program := [if b then 3 else 2]; Push(if b then 3 else 2, j);
    case Int(n) => program := IntProgram(n);
    case Str(s) => program := StrProgram(s);
    case Arr(elems) => program := ArrProgram(elems);
    case Obj(members) =>
      program := ObjProgram(j, members.Keys);
      assert Part(members, members.Keys) == members;
  }

  ghost function Dump(o: Object): (program: bytes)
    ensures Builds(program, Obj(o))
  {
    assert exists program :: Builds(program, Obj(o)) by {
      var program := Program(Obj(o));
    }
    var program :| Builds(program, Obj(o));
    program
  }

  /** The laws of the codec are consistent. */
  lemma CodecLawsAreConsistent()
    ensures exists codec: Codec :: codec.Lawful()
  {
    hide Run;
    var codec := Codec(o => Dump(o), Load);
    forall o
      ensures codec.loads(codec.dumps(o)) == Some(Obj(o)) && 0 !in codec.dumps(o)
    {
      assert Run(Dump(o), []) == [Obj(o)] + [];
    }
    assert codec.Lawful();
  }
}
