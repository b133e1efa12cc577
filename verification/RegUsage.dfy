/** Register usage from the assembler's `.set` directives: a memoised recursive evaluator with a cycle
    guard, and what its answers mean. */
module RegUsage {
  import opened Options

  type Name = string

  datatype Fn = Max | Min | Or | And
  datatype Op = Add | Sub | Mul

  /** The right-hand sides the compiler emits. */
  datatype Expr = Num(v: int) | Ref(name: Name) | Call(f: Fn, args: seq<Expr>) | Bin(op: Op, l: Expr, r: Expr)

  type Defs = map<Name, Expr>

  // ---- bitwise operations on unbounded integers -------------------------------------------

  function Size(x: int): nat { if x >= 0 then x else -x - 1 }

  /** Two's-complement `|` on integers of any length. */
  function BitOr(a: int, b: int): int
    decreases Size(a) + Size(b)
  {
    if Size(a) == 0 && Size(b) == 0 then (if a == -1 || b == -1 then -1 else 0)
    else 2 * BitOr(a / 2, b / 2) + (if a % 2 == 1 || b % 2 == 1 then 1 else 0)
  }

  function BitAnd(a: int, b: int): int
    decreases Size(a) + Size(b)
  {
    if Size(a) == 0 && Size(b) == 0 then (if a == -1 && b == -1 then -1 else 0)
    else 2 * BitAnd(a / 2, b / 2) + (if a % 2 == 1 && b % 2 == 1 then 1 else 0)
  }

  /** Bit k of an integer. */
  predicate Bit(x: int, k: nat)
    decreases k
  {
    if k == 0 then x % 2 == 1 else Bit(x / 2, k - 1)
  }

  lemma {:induction false} SignBits(x: int, k: nat)
    requires Size(x) == 0
    ensures Bit(x, k) <==> x == -1
    decreases k
  {
    if k > 0 { SignBits(x / 2, k - 1); }
  }

  /** They work bit by bit. */
  lemma {:induction false} BitwiseBits(a: int, b: int, k: nat)
    ensures Bit(BitOr(a, b), k) <==> Bit(a, k) || Bit(b, k)
    ensures Bit(BitAnd(a, b), k) <==> Bit(a, k) && Bit(b, k)
    decreases k
  {
    if Size(a) == 0 && Size(b) == 0 {
      SignBits(a, k);
      SignBits(b, k);
      SignBits(BitOr(a, b), k);
      SignBits(BitAnd(a, b), k);
    } else if k > 0 {
      BitwiseBits(a / 2, b / 2, k - 1);
    }
  }

  // ---- expressions ------------------------------------------------------------------------

  /** The symbols an expression refers to, in the order they are written. */
  function Refs(e: Expr): seq<Name>
    decreases e
  {
    match e
    case Num(_) => []
    case Ref(name) => [name]
    case Call(_, args) => RefsAll(args)
    case Bin(_, l, r) => Refs(l) + Refs(r)
  }

  function RefsAll(es: seq<Expr>): seq<Name>
    decreases es
  {
    if es == [] then [] else Refs(es[0]) + RefsAll(es[1..])
  }

  function Fold(f: Fn, vs: seq<int>): Option<int> {
    if vs == [] then
      match f
      case Or => Some(0)
      case And => Some(-1)
      case _ => None
    else if |vs| == 1 then Some(vs[0])
    else
      match Fold(f, vs[..|vs| - 1])
      case None => None
      case Some(a) =>
        var b := vs[|vs| - 1];
        Some(match f
             case Max => if a >= b then a else b
             case Min => if a <= b then a else b
             case Or => BitOr(a, b)
             case And => BitAnd(a, b))
  }

  /** The value of an expression whose references are in `env`; None is a raised exception. */
  function Eval(e: Expr, env: map<Name, int>): Option<int>
    decreases e
  {
    match e
    case Num(v) => Some(v)
    case Ref(name) => if name in env then Some(env[name]) else None
    case Call(f, args) =>
      (match EvalAll(args, env)
       case None => None
       case Some(vs) => Fold(f, vs))
    case Bin(op, l, r) =>
      match (Eval(l, env), Eval(r, env))
      case (Some(a), Some(b)) => Some(Combine(op, a, b))
      case _ => None
  }

  function Combine(op: Op, a: int, b: int): int {
    match op
    case Add => a + b
    case Sub => a - b
    case Mul => a * b
  }

  function EvalAll(es: seq<Expr>, env: map<Name, int>): Option<seq<int>>
    decreases es
  {
    if es == [] then Some([])
    else
      match (Eval(es[0], env), EvalAll(es[1..], env))
      case (Some(v), Some(vs)) => Some([v] + vs)
      case _ => None
  }

  // ---- what an expression denotes, without computing it -----------------------------------

  predicate AtMost(v: int, vs: seq<int>) { forall i :: 0 <= i < |vs| ==> v <= vs[i] }

  predicate AtLeast(v: int, vs: seq<int>) { forall i :: 0 <= i < |vs| ==> v >= vs[i] }

  predicate SomeBit(vs: seq<int>, k: nat) { exists i :: 0 <= i < |vs| && Bit(vs[i], k) }

  predicate EveryBit(vs: seq<int>, k: nat) { forall i :: 0 <= i < |vs| ==> Bit(vs[i], k) }

  /** `v` is the result of a function on any number of arguments: a maximum or a minimum is one of them,
      an "or" has just the bits of some argument, an "and" those of every one. */
  ghost predicate IsFold(f: Fn, vs: seq<int>, v: int) {
    match f
    case Max => v in vs && AtLeast(v, vs)
    case Min => v in vs && AtMost(v, vs)
    case Or => forall k: nat :: Bit(v, k) <==> SomeBit(vs, k)
    case And => forall k: nat :: Bit(v, k) <==> EveryBit(vs, k)
  }

  /** n added up a times. */
  function Times(a: nat, n: int): int { if a == 0 then 0 else Times(a - 1, n) + n }

  ghost predicate IsBin(op: Op, a: int, b: int, v: int) {
    match op
    case Add => v - b == a
    case Sub => v + b == a
    case Mul => if a >= 0 then v == Times(a, b) else v == -Times(-a, b)
  }

  /** `v` is the value of an expression whose references are in `env`. */
  ghost predicate Denotes(e: Expr, env: map<Name, int>, v: int)
    decreases e
  {
    match e
    case Num(n) => v == n
    case Ref(name) => name in env && env[name] == v
    case Call(f, args) => exists vs: seq<int> :: DenoteAll(args, env, vs) && IsFold(f, vs, v)
    case Bin(op, l, r) => exists a: int, b: int :: Denotes(l, env, a) && Denotes(r, env, b) && IsBin(op, a, b, v)
  }

  ghost predicate DenoteAll(es: seq<Expr>, env: map<Name, int>, vs: seq<int>)
    decreases es
  {
    |vs| == |es| && forall i :: 0 <= i < |es| ==> Denotes(es[i], env, vs[i])
  }

  /** Every reference of an expression has a value, and no maximum or minimum is of nothing. */
  ghost predicate Defined(e: Expr, env: map<Name, int>)
    decreases e
  {
    match e
    case Num(_) => true
    case Ref(name) => name in env
    case Call(f, args) => (args == [] ==> f == Or || f == And) && forall i :: 0 <= i < |args| ==> Defined(args[i], env)
    case Bin(_, l, r) => Defined(l, env) && Defined(r, env)
  }

  /** Bits determine an integer. */
  lemma {:induction false} BitsDecide(a: int, b: int)
    requires forall k: nat :: Bit(a, k) <==> Bit(b, k)
    ensures a == b
    decreases Size(a) + Size(b)
  {
    assert Bit(a, 0) <==> Bit(b, 0);
    if Size(a) == 0 && Size(b) == 0 {
      SignBits(a, 0);
      SignBits(b, 0);
    } else {
      forall k: nat ensures Bit(a / 2, k) <==> Bit(b / 2, k) { assert Bit(a, k + 1) <==> Bit(b, k + 1); }
      BitsDecide(a / 2, b / 2);
    }
  }

  lemma FoldUnique(f: Fn, vs: seq<int>, v: int, w: int)
    requires IsFold(f, vs, v) && IsFold(f, vs, w)
    ensures v == w
  {
    if f == Or || f == And {
      forall k: nat ensures Bit(v, k) <==> Bit(w, k) { }
      BitsDecide(v, w);
    } else {
      var i :| 0 <= i < |vs| && vs[i] == v;
      var j :| 0 <= j < |vs| && vs[j] == w;
    }
  }

  lemma ExtremeNext(f: Fn, init: seq<int>, a: int, b: int)
    requires (f == Max || f == Min) && IsFold(f, init, a)
    ensures IsFold(f, init + [b], if (f == Max) == (a >= b) then a else b)
  {
    var vs := init + [b];
    var i :| 0 <= i < |init| && init[i] == a;
    assert vs[i] == a && vs[|init|] == b;
  }

  lemma BitsNext(init: seq<int>, a: int, b: int)
    ensures IsFold(Or, init, a) ==> IsFold(Or, init + [b], BitOr(a, b))
    ensures IsFold(And, init, a) ==> IsFold(And, init + [b], BitAnd(a, b))
  {
    var vs := init + [b];
    forall k: nat
      ensures Bit(BitOr(a, b), k) <==> Bit(a, k) || Bit(b, k)
      ensures Bit(BitAnd(a, b), k) <==> Bit(a, k) && Bit(b, k)
      ensures SomeBit(vs, k) <==> SomeBit(init, k) || Bit(b, k)
      ensures EveryBit(vs, k) <==> EveryBit(init, k) && Bit(b, k)
    {
      BitwiseBits(a, b, k);
      if i :| 0 <= i < |init| && Bit(init[i], k) { assert Bit(vs[i], k); }
      assert vs[|init|] == b;
      if EveryBit(vs, k) {
        forall i | 0 <= i < |init| ensures Bit(init[i], k) { assert Bit(vs[i], k); }
      }
    }
  }

  lemma BitsOfNone(k: nat)
    ensures !Bit(0, k) && Bit(-1, k)
  {
    SignBits(0, k);
    SignBits(-1, k);
  }

  lemma FoldOne(f: Fn, x: int)
    ensures IsFold(f, [x], x)
  {
    forall k: nat ensures SomeBit([x], k) <==> Bit(x, k) { assert [x][0] == x; }
  }

  /** What the helper functions compute is a maximum, a minimum, an "or" or an "and" of all their
      arguments, and only a maximum or minimum of nothing has no value. */
  lemma {:induction false} FoldIs(f: Fn, vs: seq<int>)
    ensures Fold(f, vs).Some? <==> vs != [] || f == Or || f == And
    ensures Fold(f, vs).Some? ==> IsFold(f, vs, Fold(f, vs).value)
    decreases |vs|
  {
    if vs == [] {
      forall k: nat ensures !Bit(0, k) && Bit(-1, k) { BitsOfNone(k); }
    } else if |vs| == 1 {
      FoldOne(f, vs[0]);
      assert vs == [vs[0]];
    } else {
      var init, b := vs[..|vs| - 1], vs[|vs| - 1];
      assert vs == init + [b];
      FoldIs(f, init);
      var a := Fold(f, init).value;
      if f == Max || f == Min { ExtremeNext(f, init, a, b); } else { BitsNext(init, a, b); }
    }
  }

  lemma {:induction false} TimesIs(a: nat, n: int)
    ensures Times(a, n) == a * n
  {
    if a > 0 { TimesIs(a - 1, n); }
  }

  /** Evaluation finds the value an expression denotes, if it denotes one; it denotes one exactly when all
      its references have values and it takes no maximum or minimum of nothing. */
  lemma {:induction false} EvalIs(e: Expr, env: map<Name, int>, v: int)
    ensures Eval(e, env) == Some(v) <==> Denotes(e, env, v)
    ensures Eval(e, env).Some? <==> Defined(e, env)
    decreases e
  {
    match e
    case Num(_) =>
    case Ref(_) =>
    case Call(f, args) =>
      EvalAllIs(args, env);
      CallIs(f, args, env, v);
    case Bin(op, l, r) =>
      forall a: int ensures Eval(l, env) == Some(a) <==> Denotes(l, env, a) { EvalIs(l, env, a); }
      forall b: int ensures Eval(r, env) == Some(b) <==> Denotes(r, env, b) { EvalIs(r, env, b); }
      EvalIs(l, env, 0);
      EvalIs(r, env, 0);
      BinIs(op, l, r, env, v);
  }

  lemma CallIs(f: Fn, args: seq<Expr>, env: map<Name, int>, v: int)
    requires forall vs: seq<int> :: EvalAll(args, env) == Some(vs) <==> DenoteAll(args, env, vs)
    requires EvalAll(args, env).Some? <==> forall i :: 0 <= i < |args| ==> Defined(args[i], env)
    ensures Eval(Call(f, args), env) == Some(v) <==> Denotes(Call(f, args), env, v)
    ensures Eval(Call(f, args), env).Some? <==> Defined(Call(f, args), env)
  {
    if EvalAll(args, env).Some? {
      var vs := EvalAll(args, env).value;
      assert DenoteAll(args, env, vs);
      FoldIs(f, vs);
      if Denotes(Call(f, args), env, v) {
        var us: seq<int> :| DenoteAll(args, env, us) && IsFold(f, us, v);
        assert us == vs;
        if vs == [] && (f == Max || f == Min) { assert false; }
        FoldUnique(f, vs, v, Fold(f, vs).value);
      }
    }
  }

  lemma BinIs(op: Op, l: Expr, r: Expr, env: map<Name, int>, v: int)
    requires forall a: int :: Eval(l, env) == Some(a) <==> Denotes(l, env, a)
    requires forall b: int :: Eval(r, env) == Some(b) <==> Denotes(r, env, b)
    ensures Eval(Bin(op, l, r), env) == Some(v) <==> Denotes(Bin(op, l, r), env, v)
  {
    if Eval(l, env).Some? && Eval(r, env).Some? {
      var a, b := Eval(l, env).value, Eval(r, env).value;
      assert Denotes(l, env, a) && Denotes(r, env, b);
      CombineIs(op, a, b, v);
    }
  }

  lemma CombineIs(op: Op, a: int, b: int, v: int)
    ensures Combine(op, a, b) == v <==> IsBin(op, a, b, v)
  {
    if a >= 0 { TimesIs(a, b); } else { TimesIs(-a, b); }
  }

  lemma {:induction false} EvalAllIs(es: seq<Expr>, env: map<Name, int>)
    ensures forall vs: seq<int> :: EvalAll(es, env) == Some(vs) <==> DenoteAll(es, env, vs)
    ensures EvalAll(es, env).Some? <==> forall i :: 0 <= i < |es| ==> Defined(es[i], env)
    decreases es
  {
    if es == [] {
      forall vs: seq<int> ensures EvalAll(es, env) == Some(vs) <==> DenoteAll(es, env, vs) { }
    } else {
      forall v: int ensures Eval(es[0], env) == Some(v) <==> Denotes(es[0], env, v) { EvalIs(es[0], env, v); }
      EvalIs(es[0], env, 0);
      EvalAllIs(es[1..], env);
      forall vs: seq<int> ensures EvalAll(es, env) == Some(vs) <==> DenoteAll(es, env, vs) {
        FirstDenotes(es, env, vs);
      }
      FirstDefined(es, env);
    }
  }

  lemma FirstDenotes(es: seq<Expr>, env: map<Name, int>, vs: seq<int>)
    requires es != []
    requires forall v: int :: Eval(es[0], env) == Some(v) <==> Denotes(es[0], env, v)
    requires forall us: seq<int> :: EvalAll(es[1..], env) == Some(us) <==> DenoteAll(es[1..], env, us)
    ensures EvalAll(es, env) == Some(vs) <==> DenoteAll(es, env, vs)
  {
    if EvalAll(es, env) == Some(vs) {
      assert DenoteAll(es[1..], env, vs[1..]);
      forall i | 0 <= i < |es| ensures Denotes(es[i], env, vs[i]) {
        if i > 0 { assert es[1..][i - 1] == es[i] && vs[1..][i - 1] == vs[i]; }
      }
    }
    if DenoteAll(es, env, vs) {
      assert DenoteAll(es[1..], env, vs[1..]);
      assert vs == [vs[0]] + vs[1..];
    }
  }

  lemma FirstDefined(es: seq<Expr>, env: map<Name, int>)
    requires es != []
    ensures (forall i :: 0 <= i < |es| ==> Defined(es[i], env)) <==>
            Defined(es[0], env) && forall i :: 0 <= i < |es[1..]| ==> Defined(es[1..][i], env)
  {
    if Defined(es[0], env) && forall i :: 0 <= i < |es[1..]| ==> Defined(es[1..][i], env) {
      forall i | 0 <= i < |es| ensures Defined(es[i], env) {
        if i > 0 { assert es[1..][i - 1] == es[i]; }
      }
    }
  }

  /** No maximum or minimum of nothing anywhere in it. */
  predicate Taken(e: Expr)
    decreases e
  {
    match e
    case Call(f, args) => (args == [] ==> f == Or || f == And) && forall i :: 0 <= i < |args| ==> Taken(args[i])
    case Bin(_, l, r) => Taken(l) && Taken(r)
    case _ => true
  }

  /** The references listed are just the ones evaluation needs. */
  lemma {:induction false} RefsNeeded(e: Expr, env: map<Name, int>)
    ensures Defined(e, env) <==> Taken(e) && forall x :: x in Refs(e) ==> x in env
    decreases e
  {
    match e
    case Call(_, args) =>
      RefsAllNeeded(args, env);
      forall i | 0 <= i < |args| ensures Defined(args[i], env) ==> Taken(args[i]) { RefsNeeded(args[i], env); }
    case Bin(_, l, r) =>
      RefsNeeded(l, env);
      RefsNeeded(r, env);
    case _ =>
  }

  lemma {:induction false} RefsAllNeeded(es: seq<Expr>, env: map<Name, int>)
    ensures (forall i :: 0 <= i < |es| ==> Defined(es[i], env)) <==>
            (forall i :: 0 <= i < |es| ==> Taken(es[i])) && forall x :: x in RefsAll(es) ==> x in env
    decreases es
  {
    if es != [] {
      RefsNeeded(es[0], env);
      RefsAllNeeded(es[1..], env);
      FirstDefined(es, env);
      if forall i :: 0 <= i < |es[1..]| ==> Taken(es[1..][i]) {
        forall i | 0 < i < |es| ensures Taken(es[i]) { assert es[1..][i - 1] == es[i]; }
      }
    }
  }

  // ---- meaning ----------------------------------------------------------------------------

  /** The value of a symbol when references nest at most n deep, with no memory of earlier answers. */
  function Meaning(defs: Defs, name: Name, n: nat): Option<int>
    decreases n, 0
  {
    if n == 0 || name !in defs then None
    else
      match Values(defs, Refs(defs[name]), n - 1)
      case None => None
      case Some(env) => Eval(defs[name], env)
  }

  /** The values of `refs`, if all have one. */
  function Values(defs: Defs, refs: seq<Name>, n: nat): Option<map<Name, int>>
    decreases n, |refs| + 1
  {
    if refs == [] then Some(map[])
    else
      match (Values(defs, refs[..|refs| - 1], n), Meaning(defs, refs[|refs| - 1], n))
      case (Some(env), Some(v)) => Some(env[refs[|refs| - 1] := v])
      case _ => None
  }

  ghost predicate HasValue(defs: Defs, name: Name, v: int) { exists n: nat :: Meaning(defs, name, n) == Some(v) }

  ghost predicate NoValue(defs: Defs, name: Name) { forall n: nat :: Meaning(defs, name, n).None? }

  lemma {:induction false} MeaningGrows(defs: Defs, name: Name, n: nat, m: nat)
    requires n <= m && Meaning(defs, name, n).Some?
    ensures Meaning(defs, name, m) == Meaning(defs, name, n)
    decreases n, 0
  {
    ValuesGrow(defs, Refs(defs[name]), n - 1, m - 1);
  }

  lemma {:induction false} ValuesGrow(defs: Defs, refs: seq<Name>, n: nat, m: nat)
    requires n <= m && Values(defs, refs, n).Some?
    ensures Values(defs, refs, m) == Values(defs, refs, n)
    decreases n, |refs| + 1
  {
    if refs != [] {
      ValuesGrow(defs, refs[..|refs| - 1], n, m);
      MeaningGrows(defs, refs[|refs| - 1], n, m);
    }
  }

  /** A symbol has at most one value. */
  lemma ValueUnique(defs: Defs, name: Name, v: int, w: int)
    requires HasValue(defs, name, v) && HasValue(defs, name, w)
    ensures v == w
  {
    var n: nat :| Meaning(defs, name, n) == Some(v);
    var m: nat :| Meaning(defs, name, m) == Some(w);
    if n <= m { MeaningGrows(defs, name, n, m); } else { MeaningGrows(defs, name, m, n); }
  }

  lemma {:induction false} RefHasValue(defs: Defs, refs: seq<Name>, n: nat, k: nat)
    requires k < |refs| && Values(defs, refs, n).Some?
    ensures Meaning(defs, refs[k], n).Some?
  {
    if k < |refs| - 1 { RefHasValue(defs, refs[..|refs| - 1], n, k); }
  }

  lemma {:induction false} ValuesAre(defs: Defs, refs: seq<Name>, n: nat)
    requires Values(defs, refs, n).Some?
    ensures var env := Values(defs, refs, n).value;
            (forall x :: x in env <==> x in refs) && forall x :: x in env ==> Meaning(defs, x, n) == Some(env[x])
  {
    if refs != [] { ValuesAre(defs, refs[..|refs| - 1], n); }
  }

  /** `env` gives every one of `refs` its value, and nothing else. */
  ghost predicate Resolves(defs: Defs, refs: seq<Name>, env: map<Name, int>) {
    (forall x :: x in env <==> x in refs) && forall x :: x in env ==> HasValue(defs, x, env[x])
  }

  lemma {:induction false} CommonDepth(defs: Defs, refs: seq<Name>, env: map<Name, int>) returns (n: nat)
    requires forall x :: x in refs ==> x in env && HasValue(defs, x, env[x])
    ensures Values(defs, refs, n).Some? && forall x :: x in refs ==>
            x in Values(defs, refs, n).value && Values(defs, refs, n).value[x] == env[x]
  {
    if refs == [] {
      n := 0;
    } else {
      var init, x := refs[..|refs| - 1], refs[|refs| - 1];
      var m := CommonDepth(defs, init, env);
      assert x in refs;
      var i: nat :| Meaning(defs, x, i) == Some(env[x]);
      n := if i > m then i else m;
      MeaningGrows(defs, x, i, n);
      ValuesGrow(defs, init, m, n);
    }
  }

  /** The meaning, unfolded once: a symbol has a value just when it is defined, everything it refers to
      has one, and its expression denotes that value with theirs. */
  lemma ValueEquation(defs: Defs, name: Name, v: int)
    ensures HasValue(defs, name, v) <==>
            name in defs && exists env :: Resolves(defs, Refs(defs[name]), env) && Denotes(defs[name], env, v)
  {
    ValueUnfolds(defs, name, v);
    if name in defs {
      forall env ensures Eval(defs[name], env) == Some(v) <==> Denotes(defs[name], env, v) {
        EvalIs(defs[name], env, v);
      }
    }
  }

  lemma ValueUnfolds(defs: Defs, name: Name, v: int)
    ensures HasValue(defs, name, v) <==>
            name in defs && exists env :: Resolves(defs, Refs(defs[name]), env) && Eval(defs[name], env) == Some(v)
  {
    if n: nat :| Meaning(defs, name, n) == Some(v) {
      ValuesAre(defs, Refs(defs[name]), n - 1);
      var env := Values(defs, Refs(defs[name]), n - 1).value;
      assert Resolves(defs, Refs(defs[name]), env) && Eval(defs[name], env) == Some(v);
    }
    if name in defs {
      if env :| Resolves(defs, Refs(defs[name]), env) && Eval(defs[name], env) == Some(v) {
        var n := CommonDepth(defs, Refs(defs[name]), env);
        ValuesAre(defs, Refs(defs[name]), n);
        assert Values(defs, Refs(defs[name]), n).value == env;
        assert Meaning(defs, name, n + 1) == Some(v);
      }
    }
  }

  predicate RefersTo(defs: Defs, a: Name, b: Name) { a in defs && b in Refs(defs[a]) }

  /** A symbol's value needs its references' values, one level less deep. */
  lemma RefBelow(defs: Defs, a: Name, b: Name, n: nat)
    requires RefersTo(defs, a, b) && Meaning(defs, a, n).Some?
    ensures n > 0 && Meaning(defs, b, n - 1).Some?
  {
    var k :| 0 <= k < |Refs(defs[a])| && Refs(defs[a])[k] == b;
    RefHasValue(defs, Refs(defs[a]), n - 1, k);
  }

  lemma RefMissing(defs: Defs, a: Name, b: Name)
    requires RefersTo(defs, a, b) && NoValue(defs, b)
    ensures NoValue(defs, a)
  {
    forall n: nat ensures Meaning(defs, a, n).None? {
      if Meaning(defs, a, n).Some? { RefBelow(defs, a, b, n); }
    }
  }

  // ---- cycles -----------------------------------------------------------------------------

  /** Each symbol of `chain` refers to the next one. */
  ghost predicate Chain(defs: Defs, chain: seq<Name>) {
    forall i :: 0 <= i < |chain| - 1 ==> Link(defs, chain, i)
  }

  ghost predicate Link(defs: Defs, chain: seq<Name>, i: nat)
    requires i + 1 < |chain|
  {
    RefersTo(defs, chain[i], chain[i + 1])
  }

  lemma {:induction false} DownChain(defs: Defs, chain: seq<Name>, i: nat, n: nat)
    requires Chain(defs, chain) && i < |chain| && Meaning(defs, chain[0], n).Some?
    ensures n >= i && Meaning(defs, chain[i], n - i).Some?
  {
    if i > 0 {
      DownChain(defs, chain, i - 1, n);
      assert Link(defs, chain, i - 1);
      RefBelow(defs, chain[i - 1], chain[i], n - (i - 1));
    }
  }

  /** A symbol on a cycle has no value. */
  lemma {:induction false} CycleMissing(defs: Defs, chain: seq<Name>, n: nat)
    requires Chain(defs, chain) && |chain| > 1 && chain[0] == chain[|chain| - 1]
    ensures Meaning(defs, chain[0], n).None?
    decreases n
  {
    if Meaning(defs, chain[0], n).Some? {
      DownChain(defs, chain, |chain| - 1, n);
      CycleMissing(defs, chain, n - (|chain| - 1));
    }
  }

  /** Coming back to a symbol that is still being evaluated. */
  lemma BackToOpen(defs: Defs, open: seq<Name>, name: Name)
    requires Chain(defs, open + [name]) && name in open
    ensures NoValue(defs, name)
  {
    var i :| 0 <= i < |open| && open[i] == name;
    var chain := (open + [name])[i..];
    forall k | 0 <= k < |chain| - 1 ensures Link(defs, chain, k) { assert Link(defs, open + [name], i + k); }
    forall n: nat ensures Meaning(defs, name, n).None? { CycleMissing(defs, chain, n); }
  }

  lemma ChainSnoc(defs: Defs, open: seq<Name>, name: Name, next: Name)
    requires Chain(defs, open + [name]) && RefersTo(defs, name, next)
    ensures Chain(defs, open + [name] + [next])
  {
    var c := open + [name] + [next];
    forall k | 0 <= k < |c| - 1 ensures Link(defs, c, k) {
      if k < |open| { assert Link(defs, open + [name], k); }
    }
  }

  // ---- the evaluator ----------------------------------------------------------------------

  class Evaluator {
    const defs: Defs
    var memo: map<Name, Option<int>>

    constructor (defs: Defs)
      ensures this.defs == defs && Valid()
    {
      this.defs := defs;
      memo := map[];
    }

    /** A remembered value is the symbol's value; a symbol left without one, by a guard that was never
        replaced, has none — except those still being evaluated. */
    ghost predicate Remembers(open: seq<Name>)
      reads this
    {
      && memo.Keys <= defs.Keys
      && (forall x :: x in memo && memo[x].Some? ==> HasValue(defs, x, memo[x].value))
      && (forall x :: x in memo && memo[x].None? && x !in open ==> NoValue(defs, x))
      && (forall x :: x in open ==> x in memo && memo[x].None?)
    }

    /** Between queries nothing is being evaluated. */
    ghost predicate Valid()
      reads this
    {
      Remembers([])
    }

    /** `ev`, with the symbols that are being evaluated in `open`. */
    method Ev(name: Name, ghost open: seq<Name>) returns (r: Option<int>)
      requires Remembers(open) && Chain(defs, open + [name])
      modifies this
      ensures Remembers(open) && old(memo).Keys <= memo.Keys
      ensures r.Some? ==> HasValue(defs, name, r.value)
      ensures r.None? ==> NoValue(defs, name)
      decreases defs.Keys - memo.Keys
    {
      if name in memo {
        if memo[name].None? {
          if name in open { BackToOpen(defs, open, name); }
          return None;
        }
        return memo[name];
      }
      if name !in defs { return None; }
      ghost var before := memo;
      memo := memo[name := None];
      var refs := Refs(defs[name]);
      var env: map<Name, int> := map[];
      ghost var n := 0;
      for k := 0 to |refs|
        invariant Remembers(open + [name]) && before.Keys + {name} <= memo.Keys
        invariant Values(defs, refs[..k], n) == Some(env)
      {
        assert RefersTo(defs, name, refs[k]);
        ChainSnoc(defs, open, name, refs[k]);
        var v := Ev(refs[k], open + [name]);
        if v.None? {
          RefMissing(defs, name, refs[k]);
          return None;
        }
        env := env[refs[k] := v.value];
        n := OneMoreValue(defs, refs, k, n, v.value);
      }
      assert refs[..|refs|] == refs;
      r := Eval(defs[name], env);
      assert Meaning(defs, name, n + 1) == r;
      if r.Some? {
        memo := memo[name := r];
      } else {
        Failed(defs, name, n);
      }
    }

    /** A query: the value exactly when there is one, whatever was asked before. */
    method Query(name: Name) returns (r: Option<int>)
      requires Valid()
      modifies this
      ensures Valid()
      ensures r.Some? <==> exists v :: HasValue(defs, name, v)
      ensures r.Some? ==> HasValue(defs, name, r.value)
    {
      r := Ev(name, []);
      if v :| HasValue(defs, name, v) {
        var n: nat :| Meaning(defs, name, n) == Some(v);
      }
    }
  }

  lemma OneMoreValue(defs: Defs, refs: seq<Name>, k: nat, n: nat, v: int) returns (m: nat)
    requires k < |refs| && Values(defs, refs[..k], n).Some? && HasValue(defs, refs[k], v)
    ensures Values(defs, refs[..k + 1], m) == Some(Values(defs, refs[..k], n).value[refs[k] := v])
  {
    var i: nat :| Meaning(defs, refs[k], i) == Some(v);
    m := if i > n then i else n;
    MeaningGrows(defs, refs[k], i, m);
    ValuesGrow(defs, refs[..k], n, m);
    assert refs[..k + 1][..k] == refs[..k];
  }

  /** An expression that raises with its references' values raises at every depth. */
  lemma Failed(defs: Defs, name: Name, n: nat)
    requires name in defs && Values(defs, Refs(defs[name]), n).Some? && Meaning(defs, name, n + 1).None?
    ensures NoValue(defs, name)
  {
    forall m: nat ensures Meaning(defs, name, m).None? {
      if Meaning(defs, name, m).Some? {
        if m <= n + 1 { MeaningGrows(defs, name, m, n + 1); }
        else { ValuesGrow(defs, Refs(defs[name]), n, m - 1); }
      }
    }
  }

  /** `parse_asm_regusage`: evaluate every usage symbol, in any order, skipping those that raise. */
  method Collect(defs: Defs, order: seq<Name>, usage: Name -> bool) returns (out: map<Name, int>)
    requires forall x :: x in order <==> x in defs
    ensures forall x :: x in out <==> x in defs && usage(x) && exists v :: HasValue(defs, x, v)
    ensures forall x :: x in out ==> HasValue(defs, x, out[x])
  {
    var e := new Evaluator(defs);
    out := map[];
    for i := 0 to |order|
      invariant e.Valid() && e.defs == defs
      invariant forall x :: x in out <==> x in order[..i] && usage(x) && exists v :: HasValue(defs, x, v)
      invariant forall x :: x in out ==> HasValue(defs, x, out[x])
    {
      if usage(order[i]) {
        var r := e.Query(order[i]);
        if r.Some? { out := out[order[i] := r.value]; }
      }
    }
  }
}
