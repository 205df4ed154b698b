/** The local variables of a program, and names for new ones. */
module Locals {
  import opened IR

  // ---- Numbers in decimal ----------------------------------------------------------------

  function Digit(d: nat): char
    requires d < 10
  {
    '0' + d as char
  }

  function Decimal(n: nat): (s: string)
    ensures s != []
  {
    if n < 10 then [Digit(n)] else Decimal(n / 10) + [Digit(n % 10)]
  }

  lemma {:induction false} DecimalInjective(a: nat, b: nat)
    requires Decimal(a) == Decimal(b)
    ensures a == b
  {
    var s := Decimal(a);
    assert s[|s| - 1] == Digit(a % 10) && s[|s| - 1] == Digit(b % 10);
    if a >= 10 && b >= 10 {
      assert Decimal(a / 10) == s[..|s| - 1] == Decimal(b / 10);
      DecimalInjective(a / 10, b / 10);
    }
  }

  function Numbered(hint: string, n: nat): string { hint + Decimal(n) }

  lemma {:induction false} NumberedInjective(hint: string, a: nat, b: nat)
    requires Numbered(hint, a) == Numbered(hint, b)
    ensures a == b
  {
    assert Numbered(hint, a)[|hint|..] == Decimal(a) && Numbered(hint, b)[|hint|..] == Decimal(b);
    DecimalInjective(a, b);
  }

  // ---- New names ------------------------------------------------------------------------------

  /** The first of hint<n>, hint<n+1>, ... that is not used. */
  function FirstFree(hint: string, used: set<string>, n: nat): (name: string)
    decreases |used|
  {
    if Numbered(hint, n) in used then
      Shrinks(used, Numbered(hint, n));
      FirstFree(hint, used - {Numbered(hint, n)}, n + 1)
    else Numbered(hint, n)
  }

  lemma {:induction false} Shrinks(used: set<string>, x: string)
    requires x in used
    ensures |used - {x}| < |used|
  {}

  /** hint<k> is free, and no smaller number from n on is. */
  predicate FirstAt(hint: string, used: set<string>, n: nat, k: nat)
  {
    k >= n && Numbered(hint, k) !in used && forall j: nat :: n <= j < k ==> Numbered(hint, j) in used
  }

  /** The name is not used, has the form hint<k> for some k >= n, and every smaller number is taken. */
  lemma {:induction false} FirstFreeIs(hint: string, used: set<string>, n: nat)
    ensures FirstFree(hint, used, n) !in used
    ensures exists k: nat :: FirstAt(hint, used, n, k) && FirstFree(hint, used, n) == Numbered(hint, k)
    decreases |used|
  {
    var first := Numbered(hint, n);
    if first in used {
      Shrinks(used, first);
      FirstFreeIs(hint, used - {first}, n + 1);
      var k: nat :| FirstAt(hint, used - {first}, n + 1, k) &&
        FirstFree(hint, used - {first}, n + 1) == Numbered(hint, k);
      if Numbered(hint, k) == first { NumberedInjective(hint, n, k); }
      assert FirstAt(hint, used, n, k);
    } else {
      assert FirstAt(hint, used, n, n);
    }
  }

  function TempName(hint: string, used: set<string>): string { FirstFree(hint, used, 1) }

  function Names(vars: seq<LocalVar>): set<string> { set v | v in vars :: v.name }

  lemma {:induction false} NamesAppend(vars: seq<LocalVar>, v: LocalVar)
    ensures Names(vars + [v]) == Names(vars) + {v.name}
  {
    forall x ensures x in Names(vars + [v]) <==> x in Names(vars) + {v.name} {
      if x in Names(vars) {
        var u :| u in vars && u.name == x;
        assert u in vars + [v];
      }
      if x == v.name { assert v in vars + [v]; }
    }
  }

  /** The variables of a program. */
  class VarTable {
    var vars: seq<LocalVar>

    constructor (vs: seq<LocalVar>)
      ensures vars == vs
    {
      vars := vs;
    }

    method GetVar(name: string) returns (r: Option<LocalVar>)
      ensures r.Some? <==> name in Names(vars)
      ensures r.Some? ==> r.value in vars && r.value.name == name
    {
      for i := 0 to |vars|
        invariant forall j | 0 <= j < i :: vars[j].name != name
      {
        if vars[i].name == name { return Some(vars[i]); }
      }
      return None;
    }

    method AddLocalVar(name: string, ty: ExprType) returns (v: LocalVar)
      modifies this
      ensures v == LocalVar(name, ty) && vars == old(vars) + [v]
    {
      v := LocalVar(name, ty);
      vars := vars + [v];
    }

    /** Tries hint1, hint2, ... until a name is free. */
    method AddTempVar(hint: string, ty: ExprType) returns (v: LocalVar)
      modifies this
      ensures v == LocalVar(TempName(hint, Names(old(vars))), ty) && v.name !in Names(old(vars))
      ensures vars == old(vars) + [v] && Names(vars) == Names(old(vars)) + {v.name}
    {
      ghost var all := Names(vars);
      ghost var left := all;
      var counter: nat := 1;
      var taken := GetVar(Numbered(hint, counter));
      while taken.Some?
        invariant vars == old(vars) && counter >= 1
        invariant taken.Some? <==> Numbered(hint, counter) in all
        invariant left <= all && FirstFree(hint, left, counter) == TempName(hint, all)
        invariant forall x | x in all && x !in left :: exists j: nat :: j < counter && x == Numbered(hint, j)
        decreases |left|
      {
        ghost var name := Numbered(hint, counter);
        if name !in left {
          ghost var j: nat :| j < counter && name == Numbered(hint, j);
          NumberedInjective(hint, j, counter);
        }
        Shrinks(left, name);
        left := left - {name};
        counter := counter + 1;
        taken := GetVar(Numbered(hint, counter));
      }
      FirstFreeIs(hint, all, 1);
      v := AddLocalVar(Numbered(hint, counter), ty);
      NamesAppend(old(vars), v);
    }
  }
}
