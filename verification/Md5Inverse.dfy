// For a fixed block the 64 steps of md5/md5.c are a bijection on the four words, with an explicit inverse.
module Md5Inverse {

  import opened Md5Words
  import opened Md5Rounds

  // The a that Operation(i, a, b, c, d, x) was computed from.
  function Unmix(i: nat, r: uint32, b: uint32, c: uint32, d: uint32, x: Block): uint32
    requires i < 64
  {
    Sub(Sub(Sub(RotateLeft(Sub(r, b), 32 - Rotation(i)), T(i)), Word(i, x)), Mix(i, b, c, d))
  }

  function UnStep(i: nat, t: State, x: Block): State
    requires i < 64
  {
    State(Unmix(i, t.b, t.c, t.d, t.a, x), t.c, t.d, t.a)
  }

  // Steps n - 1, ..., 0 undone, the last one first.
  function UnSteps(n: nat, t: State, x: Block): State
    requires n <= 64
  {
    if n == 0 then t else UnSteps(n - 1, UnStep(n - 1, t, x), x)
  }

  lemma RotateForth(x: uint32, n: nat)
    requires n <= 32
    ensures RotateLeft(RotateLeft(x, 32 - n), n) == x
  {
    hide RotateLeft;
    RotateBack(x, 32 - n);
  }

  lemma UnmixOperation(i: nat, a: uint32, b: uint32, c: uint32, d: uint32, x: Block)
    requires i < 64
    ensures Unmix(i, Operation(i, a, b, c, d, x), b, c, d, x) == a
  {
    hide Add, Sub, RotateLeft, Mix, T, Word, Rotation;
    var f, w, t, n := Mix(i, b, c, d), Word(i, x), T(i), Rotation(i);
    var sum := Add(Add(Add(a, f), w), t);
    AddCommutes(b, RotateLeft(sum, n));
    AddSub(RotateLeft(sum, n), b);
    RotateBack(sum, n);
    AddSub(Add(Add(a, f), w), t);
    AddSub(Add(a, f), w);
    AddSub(a, f);
  }

  lemma OperationUnmix(i: nat, r: uint32, b: uint32, c: uint32, d: uint32, x: Block)
    requires i < 64
    ensures Operation(i, Unmix(i, r, b, c, d, x), b, c, d, x) == r
  {
    hide Add, Sub, RotateLeft, Mix, T, Word, Rotation;
    var f, w, t, n := Mix(i, b, c, d), Word(i, x), T(i), Rotation(i);
    var sum := RotateLeft(Sub(r, b), 32 - n);
    AddSub(Sub(Sub(sum, t), w), f);
    AddSub(Sub(sum, t), w);
    AddSub(sum, t);
    RotateForth(Sub(r, b), n);
    AddCommutes(b, Sub(r, b));
    AddSub(r, b);
  }

  lemma AddCommutes(x: uint32, y: uint32)
    ensures Add(x, y) == Add(y, x)
  {
  }

  lemma UnStepStep(i: nat, s: State, x: Block)
    requires i < 64
    ensures UnStep(i, Step(i, s, x), x) == s
    ensures Step(i, UnStep(i, s, x), x) == s
  {
    hide Operation, Unmix;
    UnmixOperation(i, s.a, s.b, s.c, s.d, x);
    OperationUnmix(i, s.b, s.c, s.d, s.a, x);
  }

  lemma {:induction false} UnStepsSteps(n: nat, s: State, x: Block)
    requires n <= 64
    ensures UnSteps(n, Steps(0, n, s, x), x) == s
  {
    hide Step, UnStep;
    if n > 0 {
      UnStepStep(n - 1, Steps(0, n - 1, s, x), x);
      UnStepsSteps(n - 1, s, x);
    }
  }

  lemma {:induction false} StepsUnSteps(n: nat, t: State, x: Block)
    requires n <= 64
    ensures Steps(0, n, UnSteps(n, t, x), x) == t
  {
    hide Step, UnStep;
    if n > 0 {
      StepsUnSteps(n - 1, UnStep(n - 1, t, x), x);
      UnStepStep(n - 1, t, x);
    }
  }

  // Every four words come out of exactly one four words.
  lemma StepsBijective(s: State, t: State, x: Block)
    ensures Steps(0, 64, s, x) == t <==> s == UnSteps(64, t, x)
  {
    hide Steps, UnSteps;
    var n := Whole();
    UnStepsSteps(n, s, x);
    StepsUnSteps(n, t, x);
  }

  // The final additions add the chaining value to the 64 steps: t comes out of s exactly when taking s off and undoing
  // the steps gives s back.
  lemma CompressIff(s: State, t: State, x: Block)
    ensures Compress(s, x) == t <==>
              UnSteps(64, State(Sub(t.a, s.a), Sub(t.b, s.b), Sub(t.c, s.c), Sub(t.d, s.d)), x) == s
  {
    hide Steps, UnSteps, Add, Sub;
    var r := Steps(0, 64, s, x);
    StepsBijective(s, State(Sub(t.a, s.a), Sub(t.b, s.b), Sub(t.c, s.c), Sub(t.d, s.d)), x);
    AddSubIff(s.a, r.a, t.a);
    AddSubIff(s.b, r.b, t.b);
    AddSubIff(s.c, r.c, t.c);
    AddSubIff(s.d, r.d, t.d);
  }

  lemma AddSubIff(s: uint32, r: uint32, t: uint32)
    ensures Add(s, r) == t <==> r == Sub(t, s)
  {
    AddCommutes(s, r);
    AddSub(r, s);
    AddSub(t, s);
  }

  lemma Whole() returns (n: nat)
    ensures n == 64
  {
    n := 64;
  }
}
