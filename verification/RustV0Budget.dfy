// The budget decides only whether the demangler answers, never what: a routine that
// succeeds gives the same text and the same end from any counters that leave it as much
// room.  Hence a backreference shows exactly what its target shows.

module RustV0Budget {
  import opened Common
  import opened RustV0Parse

  // r2, started at s2, repeats r1, started at s1, when its steps still suffice.
  predicate Repeats(r1: Parse, s1: nat, r2: Parse, s2: nat) {
    r1.Done? && r1.steps >= s1 && s2 + (r1.steps - s1) <= STEP_LIMIT ==>
      r2 == Done(r1.text, r1.next, s2 + (r1.steps - s1))
  }

  lemma IdentifierRepeats(body: Body, p: nat, s1: nat, d1: nat, s2: nat, d2: nat)
    requires s1 <= STEP_LIMIT && s2 <= STEP_LIMIT && d2 <= d1
    ensures Repeats(Identifier(body, p, s1, d1), s1, Identifier(body, p, s2, d2), s2)
  {
    hide Base62, Decimal, Add64;
  }

  lemma {:induction false} PathRepeats(body: Body, p: nat, s1: nat, d1: nat, s2: nat, d2: nat)
    requires s1 <= STEP_LIMIT && s2 <= STEP_LIMIT && d2 <= d1
    ensures Repeats(Path(body, p, s1, d1), s1, Path(body, p, s2, d2), s2)
    decreases STEP_LIMIT - s1, 0
  {
    hide PathInner;
    if !Exhausted(s1 + 1, d1) && !Exhausted(s2 + 1, d2) {
      PathInnerRepeats(body, p, s1 + 1, d1 + 1, s2 + 1, d2 + 1);
    }
  }

  lemma {:induction false} PathInnerRepeats(body: Body, p: nat, s1: nat, d1: nat, s2: nat, d2: nat)
    requires s1 <= STEP_LIMIT && s2 <= STEP_LIMIT && d2 <= d1
    ensures Repeats(PathInner(body, p, s1, d1), s1, PathInner(body, p, s2, d2), s2)
    decreases STEP_LIMIT - s1, 4
  {
    hide Path, Type, Identifier, NestedPath, TypeAsTrait, GenericArgs, Base62;
    match Peek(body, p)
    case 'C' => IdentifierRepeats(body, p + 1, s1, d1, s2, d2);
    case 'N' => NestedRepeats(body, p + 2, s1, d1, s2, d2);
    case 'I' =>
      PathRepeats(body, p + 1, s1, d1, s2, d2);
      var a, b := Path(body, p + 1, s1, d1), Path(body, p + 1, s2, d2);
      if a.Done? && b.Done? { GenericArgsRepeats(body, a.next, a.steps, d1, b.steps, d2, true); }
    case 'B' =>
      var offset := Base62(body, p + 1);
      if offset.Some? { PathRepeats(body, offset.value.value, s1, d1, s2, d2); }
    case 'M' =>
      PathRepeats(body, p + 1, s1, d1, s2, d2);
      var a, b := Path(body, p + 1, s1, d1), Path(body, p + 1, s2, d2);
      if a.Done? && b.Done? { TypeRepeats(body, a.next, a.steps, d1, b.steps, d2); }
    case 'X' =>
      PathRepeats(body, p + 1, s1, d1, s2, d2);
      var a, b := Path(body, p + 1, s1, d1), Path(body, p + 1, s2, d2);
      if a.Done? && b.Done? { TypeAsTraitRepeats(body, a.next, a.steps, d1, b.steps, d2); }
    case 'Y' => TypeAsTraitRepeats(body, p + 1, s1, d1, s2, d2);
    case _ =>
  }

  lemma {:induction false} NestedRepeats(body: Body, p: nat, s1: nat, d1: nat, s2: nat, d2: nat)
    requires s1 <= STEP_LIMIT && s2 <= STEP_LIMIT && d2 <= d1
    ensures Repeats(NestedPath(body, p, s1, d1), s1, NestedPath(body, p, s2, d2), s2)
    decreases STEP_LIMIT - s1, 3
  {
    hide Path, Identifier;
    PathRepeats(body, p, s1, d1, s2, d2);
    var a, b := Path(body, p, s1, d1), Path(body, p, s2, d2);
    if a.Done? && b.Done? { IdentifierRepeats(body, a.next, a.steps, d1, b.steps, d2); }
  }

  lemma {:induction false} TypeAsTraitRepeats(body: Body, p: nat, s1: nat, d1: nat, s2: nat, d2: nat)
    requires s1 <= STEP_LIMIT && s2 <= STEP_LIMIT && d2 <= d1
    ensures Repeats(TypeAsTrait(body, p, s1, d1), s1, TypeAsTrait(body, p, s2, d2), s2)
    decreases STEP_LIMIT - s1, 3
  {
    hide Path, Type;
    TypeRepeats(body, p, s1, d1, s2, d2);
    var a, b := Type(body, p, s1, d1), Type(body, p, s2, d2);
    if a.Done? && b.Done? { PathRepeats(body, a.next, a.steps, d1, b.steps, d2); }
  }

  lemma {:induction false} GenericArgsRepeats(body: Body, p: nat, s1: nat, d1: nat, s2: nat, d2: nat, first: bool)
    requires s1 <= STEP_LIMIT && s2 <= STEP_LIMIT && d2 <= d1
    ensures Repeats(GenericArgs(body, p, s1, d1, first), s1, GenericArgs(body, p, s2, d2, first), s2)
    decreases STEP_LIMIT - s1, 3
  {
    hide GenericArg;
    if Peek(body, p) != 'E' && p < |body| && !Exhausted(s1 + 1, d1) && !Exhausted(s2 + 1, d2) {
      GenericArgRepeats(body, p, s1 + 1, d1, s2 + 1, d2);
      var a, b := GenericArg(body, p, s1 + 1, d1), GenericArg(body, p, s2 + 1, d2);
      if a.Done? && b.Done? { GenericArgsRepeats(body, a.next, a.steps, d1, b.steps, d2, false); }
    }
  }

  lemma {:induction false} GenericArgRepeats(body: Body, p: nat, s1: nat, d1: nat, s2: nat, d2: nat)
    requires s1 <= STEP_LIMIT && s2 <= STEP_LIMIT && d2 <= d1
    ensures Repeats(GenericArg(body, p, s1, d1), s1, GenericArg(body, p, s2, d2), s2)
    decreases STEP_LIMIT - s1, 3
  {
    hide Const, Type, Base62;
    if Peek(body, p) == 'K' {
      ConstRepeats(body, p + 1, s1, d1, s2, d2);
    } else if Peek(body, p) != 'L' {
      TypeRepeats(body, p, s1, d1, s2, d2);
    }
  }

  lemma {:induction false} ConstRepeats(body: Body, p: nat, s1: nat, d1: nat, s2: nat, d2: nat)
    requires s1 <= STEP_LIMIT && s2 <= STEP_LIMIT && d2 <= d1
    ensures Repeats(Const(body, p, s1, d1), s1, Const(body, p, s2, d2), s2)
    decreases STEP_LIMIT - s1, 2
  {
    hide Type, Digits, DigitsEnd;
    TypeRepeats(body, p, s1, d1, s2, d2);
  }

  lemma {:induction false} TypeRepeats(body: Body, p: nat, s1: nat, d1: nat, s2: nat, d2: nat)
    requires s1 <= STEP_LIMIT && s2 <= STEP_LIMIT && d2 <= d1
    ensures Repeats(Type(body, p, s1, d1), s1, Type(body, p, s2, d2), s2)
    decreases STEP_LIMIT - s1, 0
  {
    hide CompoundType, BasicType;
    if !Exhausted(s1 + 1, d1) && !Exhausted(s2 + 1, d2) {
      CompoundTypeRepeats(body, p, s1 + 1, d1 + 1, s2 + 1, d2 + 1);
    }
  }

  lemma {:induction false} CompoundTypeRepeats(body: Body, p: nat, s1: nat, d1: nat, s2: nat, d2: nat)
    requires s1 <= STEP_LIMIT && s2 <= STEP_LIMIT && d2 <= d1
    ensures Repeats(CompoundType(body, p, s1, d1), s1, CompoundType(body, p, s2, d2), s2)
    decreases STEP_LIMIT - s1, 4
  {
    hide Path, Type, ArrayType, Reference, TupleElements, Base62;
    match Peek(body, p)
    case 'A' => ArrayRepeats(body, p + 1, s1, d1, s2, d2);
    case 'S' => TypeRepeats(body, p + 1, s1, d1, s2, d2);
    case 'R' => ReferenceRepeats(body, p + 1, s1, d1, s2, d2, "&");
    case 'Q' => ReferenceRepeats(body, p + 1, s1, d1, s2, d2, "&mut ");
    case 'P' => TypeRepeats(body, p + 1, s1, d1, s2, d2);
    case 'O' => TypeRepeats(body, p + 1, s1, d1, s2, d2);
    case 'T' => TupleRepeats(body, p + 1, s1, d1, s2, d2, true);
    case 'B' =>
      var offset := Base62(body, p + 1);
      if offset.Some? { TypeRepeats(body, offset.value.value, s1, d1, s2, d2); }
    case _ => PathRepeats(body, p, s1, d1, s2, d2);
  }

  lemma {:induction false} ArrayRepeats(body: Body, p: nat, s1: nat, d1: nat, s2: nat, d2: nat)
    requires s1 <= STEP_LIMIT && s2 <= STEP_LIMIT && d2 <= d1
    ensures Repeats(ArrayType(body, p, s1, d1), s1, ArrayType(body, p, s2, d2), s2)
    decreases STEP_LIMIT - s1, 3
  {
    hide Type, Const;
    TypeRepeats(body, p, s1, d1, s2, d2);
    var a, b := Type(body, p, s1, d1), Type(body, p, s2, d2);
    if a.Done? && b.Done? { ConstRepeats(body, a.next, a.steps, d1, b.steps, d2); }
  }

  lemma {:induction false} ReferenceRepeats(body: Body, p: nat, s1: nat, d1: nat, s2: nat, d2: nat, sigil: string)
    requires s1 <= STEP_LIMIT && s2 <= STEP_LIMIT && d2 <= d1
    ensures Repeats(Reference(body, p, s1, d1, sigil), s1, Reference(body, p, s2, d2, sigil), s2)
    decreases STEP_LIMIT - s1, 3
  {
    hide Type, Base62;
    var lifetime := Base62(body, p + 1);
    if Peek(body, p) != 'L' {
      TypeRepeats(body, p, s1, d1, s2, d2);
    } else if lifetime.Some? {
      TypeRepeats(body, lifetime.value.next, s1, d1, s2, d2);
    }
  }

  lemma {:induction false} TupleRepeats(body: Body, p: nat, s1: nat, d1: nat, s2: nat, d2: nat, first: bool)
    requires s1 <= STEP_LIMIT && s2 <= STEP_LIMIT && d2 <= d1
    ensures Repeats(TupleElements(body, p, s1, d1, first), s1, TupleElements(body, p, s2, d2, first), s2)
    decreases STEP_LIMIT - s1, 3
  {
    hide Type;
    if Peek(body, p) != 'E' && p < |body| && !Exhausted(s1 + 1, d1) && !Exhausted(s2 + 1, d2) {
      TypeRepeats(body, p, s1 + 1, d1, s2 + 1, d2);
      var a, b := Type(body, p, s1 + 1, d1), Type(body, p, s2 + 1, d2);
      if a.Done? && b.Done? { TupleRepeats(body, a.next, a.steps, d1, b.steps, d2, false); }
    }
  }

  // On every body: once the path at `target` has been read from some counters, a
  // backreference to it shows the same text and ends just after its number, provided it is
  // nested no deeper and has steps left; it costs one step more.
  lemma BackreferenceShowsTarget(body: Body, pos: nat, target: nat, end: nat, s1: nat, d1: nat, s2: nat, d2: nat)
    requires s1 <= STEP_LIMIT && s2 <= STEP_LIMIT && d2 + 1 <= d1 <= DEPTH_LIMIT
    requires target < |body| && Peek(body, pos) == 'B' && Base62(body, pos + 1) == Some(Number(target, end))
    requires Path(body, target, s1, d1).Done?
    requires s2 + 1 + (Path(body, target, s1, d1).steps - s1) <= STEP_LIMIT
    ensures var r := Path(body, target, s1, d1);
      Path(body, pos, s2, d2) == Done(r.text, end, s2 + 1 + (r.steps - s1))
  {
    PathRepeats(body, target, s1, d1, s2 + 1, d2 + 1);
    var t := Path(body, target, s2 + 1, d2 + 1);
    assert PathInner(body, pos, s2 + 1, d2 + 1) == Done(t.text, end, t.steps);
  }

  lemma TypeBackreferenceShowsTarget(body: Body, pos: nat, target: nat, end: nat, s1: nat, d1: nat, s2: nat, d2: nat)
    requires s1 <= STEP_LIMIT && s2 <= STEP_LIMIT && d2 + 1 <= d1 <= DEPTH_LIMIT
    requires target < |body| && Peek(body, pos) == 'B' && Base62(body, pos + 1) == Some(Number(target, end))
    requires Type(body, target, s1, d1).Done?
    requires s2 + 1 + (Type(body, target, s1, d1).steps - s1) <= STEP_LIMIT
    ensures var r := Type(body, target, s1, d1);
      Type(body, pos, s2, d2) == Done(r.text, end, s2 + 1 + (r.steps - s1))
  {
    TypeRepeats(body, target, s1, d1, s2 + 1, d2 + 1);
    var t := Type(body, target, s2 + 1, d2 + 1);
    assert TypeInner(body, pos, s2 + 1, d2 + 1) == CompoundType(body, pos, s2 + 1, d2 + 1) == Done(t.text, end, t.steps);
  }
}
