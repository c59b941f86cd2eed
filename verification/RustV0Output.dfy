// How much the demangler can print: every budget step pays for at most one body length
// of text and a constant, however the backreferences jump.

module RustV0Output {
  import opened RustV0Parse

  // Text that one step may add.
  function Allowance(body: string): nat {
    |body| + 16
  }

  function Paid(w: nat, steps: nat): nat {
    w * steps
  }

  lemma PaidSum(w: nat, a: nat, b: nat)
    ensures Paid(w, a) + Paid(w, b) == Paid(w, a + b)
    ensures Paid(w, 1) == w && Paid(w, 0) == 0
  {
  }

  // The text a routine yields is covered by the steps it spends and a fixed extra.
  predicate Covered(body: string, r: Parse, steps: nat, extra: nat) {
    r.Done? ==> r.steps >= steps && |r.text| <= Paid(Allowance(body), r.steps - steps) + extra
  }

  lemma CoveredTwice(body: string, r1: Parse, r2: Parse, steps: nat)
    requires r1.Done? && r2.Done? && steps <= r1.steps <= r2.steps
    ensures Paid(Allowance(body), r1.steps - steps) + Paid(Allowance(body), r2.steps - r1.steps)
         == Paid(Allowance(body), r2.steps - steps)
  {
    PaidSum(Allowance(body), r1.steps - steps, r2.steps - r1.steps);
  }

  // One more step pays for one more allowance.
  lemma CoveredStep(body: string, r: Parse, steps: nat)
    requires Covered(body, r, steps + 1, Allowance(body))
    ensures Covered(body, r, steps, 0)
  {
    if r.Done? { PaidSum(Allowance(body), r.steps - (steps + 1), 1); }
  }

  lemma {:induction false} IdentifierOutput(body: Body, p: nat, steps: nat, depth: nat)
    requires steps <= STEP_LIMIT
    ensures Covered(body, Identifier(body, p, steps, depth), steps, 0)
    ensures var r := Identifier(body, p, steps, depth); r.Done? ==> |r.text| <= |body|
  {
    hide IdentifierTail, Base62;
    PaidSum(Allowance(body), 1, 0);
  }

  lemma {:induction false} PathOutput(body: Body, p: nat, steps: nat, depth: nat)
    requires steps <= STEP_LIMIT
    ensures Covered(body, Path(body, p, steps, depth), steps, 0)
    decreases STEP_LIMIT - steps, 0
  {
    if !Exhausted(steps + 1, depth) {
      hide PathInner, Covered;
      PathInnerOutput(body, p, steps + 1, depth + 1);
      CoveredStep(body, PathInner(body, p, steps + 1, depth + 1), steps);
    }
  }

  lemma {:induction false} PathInnerOutput(body: Body, p: nat, steps: nat, depth: nat)
    requires steps <= STEP_LIMIT
    ensures Covered(body, PathInner(body, p, steps, depth), steps, Allowance(body))
    decreases STEP_LIMIT - steps, 4
  {
    hide Path, Type, Identifier, NestedPath, TypeAsTrait, GenericArgs, Base62, Paid;
    match Peek(body, p)
    case 'C' => IdentifierOutput(body, p + 1, steps, depth);
    case 'N' => NestedOutput(body, p + 2, steps, depth);
    case 'I' =>
      PathOutput(body, p + 1, steps, depth);
      var base := Path(body, p + 1, steps, depth);
      if base.Done? {
        GenericArgsOutput(body, base.next, base.steps, depth, true);
        var args := GenericArgs(body, base.next, base.steps, depth, true);
        if args.Done? { CoveredTwice(body, base, args, steps); }
      }
    case 'B' =>
      var offset := Base62(body, p + 1);
      if offset.Some? { PathOutput(body, offset.value.value, steps, depth); }
    case 'M' =>
      PathOutput(body, p + 1, steps, depth);
      var impl := Path(body, p + 1, steps, depth);
      if impl.Done? {
        TypeOutput(body, impl.next, impl.steps, depth);
        var ty := Type(body, impl.next, impl.steps, depth);
        if ty.Done? { CoveredTwice(body, impl, ty, steps); }
      }
    case 'X' =>
      PathOutput(body, p + 1, steps, depth);
      var impl := Path(body, p + 1, steps, depth);
      if impl.Done? {
        TypeAsTraitOutput(body, impl.next, impl.steps, depth);
        var rest := TypeAsTrait(body, impl.next, impl.steps, depth);
        if rest.Done? { CoveredTwice(body, impl, rest, steps); }
      }
    case 'Y' => TypeAsTraitOutput(body, p + 1, steps, depth);
    case _ =>
  }

  lemma {:induction false} NestedOutput(body: Body, p: nat, steps: nat, depth: nat)
    requires steps <= STEP_LIMIT
    ensures Covered(body, NestedPath(body, p, steps, depth), steps, Allowance(body))
    decreases STEP_LIMIT - steps, 3
  {
    hide Path, Identifier, Paid;
    PathOutput(body, p, steps, depth);
    var parent := Path(body, p, steps, depth);
    if parent.Done? {
      IdentifierOutput(body, parent.next, parent.steps, depth);
      var ident := Identifier(body, parent.next, parent.steps, depth);
      if ident.Done? { CoveredTwice(body, parent, ident, steps); }
    }
  }

  lemma {:induction false} TypeAsTraitOutput(body: Body, p: nat, steps: nat, depth: nat)
    requires steps <= STEP_LIMIT
    ensures Covered(body, TypeAsTrait(body, p, steps, depth), steps, 6)
    decreases STEP_LIMIT - steps, 3
  {
    hide Path, Type, Paid;
    TypeOutput(body, p, steps, depth);
    var ty := Type(body, p, steps, depth);
    if ty.Done? {
      PathOutput(body, ty.next, ty.steps, depth);
      var tr := Path(body, ty.next, ty.steps, depth);
      if tr.Done? { CoveredTwice(body, ty, tr, steps); }
    }
  }

  lemma {:induction false} GenericArgsOutput(body: Body, p: nat, steps: nat, depth: nat, first: bool)
    requires steps <= STEP_LIMIT
    ensures Covered(body, GenericArgs(body, p, steps, depth, first), steps, 1)
    decreases STEP_LIMIT - steps, 3
  {
    hide GenericArg, Paid;
    PaidSum(Allowance(body), 0, 0);
    if Peek(body, p) != 'E' && p < |body| && !Exhausted(steps + 1, depth) {
      GenericArgOutput(body, p, steps + 1, depth);
      var arg := GenericArg(body, p, steps + 1, depth);
      if arg.Done? {
        GenericArgsOutput(body, arg.next, arg.steps, depth, false);
        var rest := GenericArgs(body, arg.next, arg.steps, depth, false);
        if rest.Done? {
          CoveredTwice(body, arg, rest, steps + 1);
          PaidSum(Allowance(body), rest.steps - (steps + 1), 1);
        }
      }
    }
  }

  lemma {:induction false} GenericArgOutput(body: Body, p: nat, steps: nat, depth: nat)
    requires steps <= STEP_LIMIT
    ensures Covered(body, GenericArg(body, p, steps, depth), steps, |body| + 2)
    decreases STEP_LIMIT - steps, 3
  {
    hide Const, Type, Base62, Paid;
    if Peek(body, p) == 'K' {
      ConstOutput(body, p + 1, steps, depth);
    } else if Peek(body, p) != 'L' {
      TypeOutput(body, p, steps, depth);
    }
  }

  // A constant prints its digits, or one underscore.
  lemma ConstOutput(body: Body, p: nat, steps: nat, depth: nat)
    requires steps <= STEP_LIMIT
    ensures var r := Const(body, p, steps, depth); r.Done? ==> |r.text| <= |body| + 1
  {
    hide Type;
  }

  lemma {:induction false} TypeOutput(body: Body, p: nat, steps: nat, depth: nat)
    requires steps <= STEP_LIMIT
    ensures Covered(body, Type(body, p, steps, depth), steps, 0)
    decreases STEP_LIMIT - steps, 0
  {
    if !Exhausted(steps + 1, depth) {
      hide TypeInner, Covered;
      TypeInnerOutput(body, p, steps + 1, depth + 1);
      CoveredStep(body, TypeInner(body, p, steps + 1, depth + 1), steps);
    }
  }

  lemma {:induction false} TypeInnerOutput(body: Body, p: nat, steps: nat, depth: nat)
    requires steps <= STEP_LIMIT
    ensures Covered(body, TypeInner(body, p, steps, depth), steps, Allowance(body))
    decreases STEP_LIMIT - steps, 5
  {
    hide CompoundType, Paid;
    CompoundTypeOutput(body, p, steps, depth);
  }

  lemma {:induction false} CompoundTypeOutput(body: Body, p: nat, steps: nat, depth: nat)
    requires steps <= STEP_LIMIT
    ensures Covered(body, CompoundType(body, p, steps, depth), steps, Allowance(body))
    decreases STEP_LIMIT - steps, 4
  {
    hide Path, Type, ArrayType, Reference, TupleElements, Base62, Paid;
    match Peek(body, p)
    case 'A' => ArrayOutput(body, p + 1, steps, depth);
    case 'S' => TypeOutput(body, p + 1, steps, depth);
    case 'R' => ReferenceOutput(body, p + 1, steps, depth, "&");
    case 'Q' => ReferenceOutput(body, p + 1, steps, depth, "&mut ");
    case 'P' => TypeOutput(body, p + 1, steps, depth);
    case 'O' => TypeOutput(body, p + 1, steps, depth);
    case 'T' => TupleOutput(body, p + 1, steps, depth, true);
    case 'B' =>
      var offset := Base62(body, p + 1);
      if offset.Some? { TypeOutput(body, offset.value.value, steps, depth); }
    case _ => PathOutput(body, p, steps, depth);
  }

  lemma {:induction false} ArrayOutput(body: Body, p: nat, steps: nat, depth: nat)
    requires steps <= STEP_LIMIT
    ensures Covered(body, ArrayType(body, p, steps, depth), steps, |body| + 5)
    decreases STEP_LIMIT - steps, 3
  {
    hide Type, Const, Paid;
    TypeOutput(body, p, steps, depth);
    var element := Type(body, p, steps, depth);
    if element.Done? {
      ConstOutput(body, element.next, element.steps, depth);
      var length := Const(body, element.next, element.steps, depth);
      if length.Done? { CoveredTwice(body, element, length, steps); }
    }
  }

  lemma {:induction false} ReferenceOutput(body: Body, p: nat, steps: nat, depth: nat, sigil: string)
    requires steps <= STEP_LIMIT
    ensures Covered(body, Reference(body, p, steps, depth, sigil), steps, |sigil|)
    decreases STEP_LIMIT - steps, 3
  {
    hide Type, Base62, Paid;
    var lifetime := Base62(body, p + 1);
    if Peek(body, p) != 'L' {
      TypeOutput(body, p, steps, depth);
    } else if lifetime.Some? {
      TypeOutput(body, lifetime.value.next, steps, depth);
    }
  }

  lemma {:induction false} TupleOutput(body: Body, p: nat, steps: nat, depth: nat, first: bool)
    requires steps <= STEP_LIMIT
    ensures Covered(body, TupleElements(body, p, steps, depth, first), steps, 1)
    decreases STEP_LIMIT - steps, 3
  {
    hide Type, Paid;
    PaidSum(Allowance(body), 0, 0);
    if Peek(body, p) != 'E' && p < |body| && !Exhausted(steps + 1, depth) {
      TypeOutput(body, p, steps + 1, depth);
      var element := Type(body, p, steps + 1, depth);
      if element.Done? {
        TupleOutput(body, element.next, element.steps, depth, false);
        var rest := TupleElements(body, element.next, element.steps, depth, false);
        if rest.Done? {
          CoveredTwice(body, element, rest, steps + 1);
          PaidSum(Allowance(body), rest.steps - (steps + 1), 1);
        }
      }
    }
  }

  // Whatever the body, a demangled name is at most the step limit times the body length
  // and a constant.
  lemma OutputBound(body: Body)
    ensures Run(body).Some? ==> |Run(body).value| <= STEP_LIMIT * (|body| + 16)
  {
    hide Path, SkipDecimals;
    var start := if '1' <= Peek(body, 0) <= '9' then SkipDecimals(body, 0) else 0;
    PathOutput(body, start, 0, 0);
    var r := Path(body, start, 0, 0);
    if r.Done? {
      PaidSum(Allowance(body), r.steps, STEP_LIMIT - r.steps);
    }
  }
}
