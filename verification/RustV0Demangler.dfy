// The Rust v0 demangler object: its routines change the step and depth counters, the
// failure flag, the caller's position and the caller's output text, and do to them
// exactly what the functions of RustV0Parse say.

module RustV0DemanglerObject {
  import opened Common
  import opened Slices
  import opened RustV0Parse

  class RustV0Demangler {
    const body: Body
    var pos: nat
    var failed: bool
    var steps: nat
    var depth: nat

    constructor (body: Body)
      ensures this.body == body && Fresh()
    {
      this.body := body;
      pos, failed, steps, depth := 0, false, 0, 0;
    }

    predicate Fresh()
      reads this
    {
      pos == 0 && !failed && steps == 0 && depth == 0
    }

    // No routine has failed yet, and the depth is in its range; every routine is entered in
    // such a state.
    predicate Running()
      reads this
    {
      !failed && steps <= STEP_LIMIT && depth <= DEPTH_LIMIT + 1
    }

    // What a routine has done, given the counters it started with: the flag is set exactly
    // when it returns false, and the depth is what it was.
    ghost predicate Did(r: Parse, ok: bool, oldDepth: nat, text: string, position: nat, out: string, position': nat)
      reads this
    {
      && failed == !ok
      && ok == r.Done?
      && steps == r.steps
      && depth == oldDepth
      && (ok ==> out == text + r.text && position' == r.next && steps <= STEP_LIMIT)
    }

    method Budget() returns (ok: bool)
      requires Running()
      modifies this`steps, this`failed
      ensures steps == old(steps) + 1
      ensures ok == !Exhausted(steps, depth) && failed == !ok
    {
      steps := steps + 1;
      if steps > STEP_LIMIT || depth > DEPTH_LIMIT {
        failed := true;
        return false;
      }
      return true;
    }

    method ParseBase62(position: nat) returns (ok: bool, position': nat, value: uint64)
      requires Running()
      modifies this`failed
      ensures ok == Base62(body, position).Some? && failed == !ok
      ensures ok ==> Base62(body, position) == Some(Number(value, position'))
    {
      position', value := position, 0;
      if Peek(body, position') == '_' {
        return true, position' + 1, 0;
      }
      var accumulated: uint64 := 0;
      var any := false;
      while position' < |body| && Base62Digit(body[position']).Some?
        invariant position <= position'
        invariant any == (position < position')
        invariant Base62Run(body, position', accumulated) == Base62Run(body, position, 0)
        decreases |body| - position'
      {
        accumulated := (accumulated * 62 + Base62Digit(body[position']).value) % TWO64;
        position' := position' + 1;
        any := true;
      }
      if Peek(body, position') != '_' {
        failed := true;
        return false, position', 0;
      }
      position' := position' + 1;
      if any {
        value := (accumulated + 1) % TWO64;
      }
      ok := true;
    }

    method ParseDecimal(position: nat) returns (ok: bool, position': nat, value: uint64)
      ensures ok == Decimal(body, position).Some?
      ensures ok ==> Decimal(body, position) == Some(Number(value, position'))
    {
      position', value, ok := position, 0, false;
      while position' < |body| && IsDecimal(body[position'])
        invariant position <= position'
        invariant ok == (position < position')
        invariant DecimalRun(body, position', value) == DecimalRun(body, position, 0)
        decreases |body| - position'
      {
        value := (value * 10 + (body[position'] - '0') as nat) % TWO64;
        position' := position' + 1;
        ok := true;
      }
    }

    method ParseIdentifier(out: string, position: nat) returns (ok: bool, out': string, position': nat)
      requires Running()
      modifies this`failed, this`steps
      ensures Did(Identifier(body, position, old(steps), depth), ok, depth, out, position, out', position')
    {
      out', position' := out, position;
      ok := Budget();
      if !ok { return; }
      if Peek(body, position') == 's' {
        var disambiguator;
        ok, position', disambiguator := ParseBase62(position' + 1);
        if !ok { return; }
      }
      ok, out', position' := ParseIdentifierTail(out, position');
    }

    // What follows the optional disambiguator.
    method ParseIdentifierTail(out: string, position: nat) returns (ok: bool, out': string, position': nat)
      requires Running()
      modifies this`failed
      ensures Did(IdentifierTail(body, position, steps), ok, depth, out, position, out', position')
    {
      out', position' := out, position;
      if Peek(body, position') == 'u' {
        position' := position' + 1;
      }
      var length;
      ok, position', length := ParseDecimal(position');
      if !ok {
        failed := true;
        return;
      }
      if Peek(body, position') == '_' {
        position' := position' + 1;
      }
      if Add64(position', length) > |body| {
        failed := true;
        return false, out', position';
      }
      out' := out' + body[position'..if position' + length <= |body| then position' + length else |body|];
      position' := Add64(position', length);
    }

    method ParsePath(out: string, position: nat) returns (ok: bool, out': string, position': nat)
      requires Running()
      modifies this`failed, this`steps, this`depth
      ensures Did(Path(body, position, old(steps), old(depth)), ok, old(depth), out, position, out', position')
      decreases STEP_LIMIT - steps, 0
    {
      out', position' := out, position;
      ok := Budget();
      if !ok { return; }
      depth := depth + 1;
      ok, out', position' := ParsePathInner(out, position);
      depth := depth - 1;
    }

    method ParsePathInner(out: string, position: nat) returns (ok: bool, out': string, position': nat)
      requires Running()
      modifies this`failed, this`steps, this`depth
      ensures Did(PathInner(body, position, old(steps), old(depth)), ok, old(depth), out, position, out', position')
      decreases STEP_LIMIT - steps, 3
    {
      hide Type, Path, GenericArgs, Base62, Identifier, NestedPath, TypeAsTrait;
      out', position' := out, position;
      match Peek(body, position)
      case 'C' =>
        ok, out', position' := ParseIdentifier(out, position + 1);
      case 'N' =>
        ok, out', position' := ParseNestedPath(out, position + 2);
      case 'I' =>
        ok, out', position' := ParseGenericPath(out, position + 1);
      case 'B' =>
        var offset, target;
        ok, position', offset := ParseBase62(position + 1);
        if !ok { return; }
        if offset >= |body| {
          failed := true;
          return false, out', position';
        }
        ok, out', target := ParsePath(out, offset);
      case 'M' =>
        var impl, ty;
        ok, impl, position' := ParsePath("", position + 1);
        if !ok { return; }
        ok, ty, position' := ParseType("", position');
        if !ok { return; }
        out' := out' + ("<" + ty + ">");
      case 'X' =>
        var impl;
        ok, impl, position' := ParsePath("", position + 1);
        if !ok { return; }
        ok, out', position' := ParseTypeAsTrait(out, position');
      case 'Y' =>
        ok, out', position' := ParseTypeAsTrait(out, position + 1);
      case _ =>
        failed := true;
        ok := false;
    }

    // The 'N' case.
    method ParseNestedPath(out: string, position: nat) returns (ok: bool, out': string, position': nat)
      requires Running()
      modifies this`failed, this`steps, this`depth
      ensures Did(NestedPath(body, position, old(steps), old(depth)), ok, old(depth), out, position, out', position')
      decreases STEP_LIMIT - steps, 2
    {
      hide Path, Identifier;
      var parent, ident;
      out' := out;
      ok, parent, position' := ParsePath("", position);
      if !ok { return; }
      ok, ident, position' := ParseIdentifier("", position');
      if !ok { return; }
      out' := out' + parent;
      if ident != "" {
        out' := out' + "::" + ident;
      }
    }

    // The part that the 'X' and 'Y' cases share.
    method ParseTypeAsTrait(out: string, position: nat) returns (ok: bool, out': string, position': nat)
      requires Running()
      modifies this`failed, this`steps, this`depth
      ensures Did(TypeAsTrait(body, position, old(steps), old(depth)), ok, old(depth), out, position, out', position')
      decreases STEP_LIMIT - steps, 2
    {
      var ty, tr;
      out' := out;
      ok, ty, position' := ParseType("", position);
      if !ok { return; }
      ok, tr, position' := ParsePath("", position');
      if !ok { return; }
      out' := out' + ("<" + ty + " as " + tr + ">");
    }

    // The 'I' case: a base path and the loop over its generic arguments.
    method ParseGenericPath(out: string, position: nat) returns (ok: bool, out': string, position': nat)
      requires Running()
      modifies this`failed, this`steps, this`depth
      ensures
        var base := Path(body, position, old(steps), old(depth));
        Did(if base.Fail? then base else Prepend(base.text + "::<", GenericArgs(body, base.next, base.steps, old(depth), true)),
            ok, old(depth), out, position, out', position')
      decreases STEP_LIMIT - steps, 2
    {
      hide Path, GenericArgs;
      var base;
      out' := out;
      ok, base, position' := ParsePath("", position);
      if !ok { return; }
      out' := out' + base;
      out' := out' + "::<";
      PrependTwice(out, base + "::<", GenericArgs(body, position', steps, depth, true));
      assert out' == out + (base + "::<");
      ok, out', position' := ParseGenericArgs(out', position');
    }

    method ParseGenericArgs(out: string, position: nat) returns (ok: bool, out': string, position': nat)
      requires Running()
      modifies this`failed, this`steps, this`depth
      ensures Did(GenericArgs(body, position, old(steps), old(depth), true), ok, old(depth), out, position, out', position')
      decreases STEP_LIMIT - steps, 1
    {
      hide GenericArg;
      out', position' := out, position;
      ghost var all := Prepend(out, GenericArgs(body, position, steps, depth, true));
      var first := true;
      while Peek(body, position') != 'E' && position' < |body|
        invariant !failed && old(steps) <= steps <= STEP_LIMIT && depth == old(depth)
        invariant all == Prepend(out', GenericArgs(body, position', steps, depth, first))
        decreases STEP_LIMIT - steps
      {
        ghost var before, separator := out', if first then "" else ", ";
        ElementsTurn(body, position', steps, depth, first);
        ok := Budget();
        if !ok { return; }
        if !first {
          out' := out' + ", ";
        }
        first := false;
        assert out' == before + separator;
        ghost var arg := GenericArg(body, position', steps, depth);
        ok, out', position' := ParseGenericArg(out', position');
        if !ok { return; }
        assert out' == before + (separator + arg.text);
        PrependTwice(before, separator + arg.text, GenericArgs(body, position', steps, depth, false));
      }
      if Peek(body, position') != 'E' {
        failed := true;
        return false, out', position';
      }
      position' := position' + 1;
      out' := out' + ">";
      ok := true;
    }

    method ParseGenericArg(out: string, position: nat) returns (ok: bool, out': string, position': nat)
      requires Running()
      modifies this`failed, this`steps, this`depth
      ensures Did(GenericArg(body, position, old(steps), old(depth)), ok, old(depth), out, position, out', position')
      decreases STEP_LIMIT - steps, 2
    {
      out', position' := out, position;
      if Peek(body, position') == 'L' {
        var lifetime;
        ok, position', lifetime := ParseBase62(position' + 1);
        if !ok { return; }
        out' := out' + "'_";
      } else if Peek(body, position') == 'K' {
        ok, out', position' := ParseConst(out, position' + 1);
      } else {
        ok, out', position' := ParseType(out, position');
      }
    }

    method ParseConst(out: string, position: nat) returns (ok: bool, out': string, position': nat)
      requires Running()
      modifies this`failed, this`steps, this`depth
      ensures Did(Const(body, position, old(steps), old(depth)), ok, old(depth), out, position, out', position')
      decreases STEP_LIMIT - steps, 1
    {
      hide Type, Digits, DigitsEnd;
      out', position' := out, position;
      if Peek(body, position') == 'p' {
        return true, out' + "_", position' + 1;
      }
      var ty;
      ok, ty, position' := ParseType("", position');
      if !ok { return; }
      if Peek(body, position') == 'n' {
        position' := position' + 1;
      }
      var digits;
      digits, position' := CollectDigits(position');
      if Peek(body, position') == '_' {
        position' := position' + 1;
      }
      out' := out' + if digits == "" then "_" else digits;
    }

    // The digit loop of a constant.
    method CollectDigits(position: nat) returns (digits: string, position': nat)
      ensures digits == Digits(body, position) && position' == DigitsEnd(body, position)
    {
      position' := position;
      digits := "";
      while position' < |body| && body[position'] != '_'
        invariant position <= position' && (position <= |body| ==> position' <= |body|)
        invariant DigitsEnd(body, position') == DigitsEnd(body, position)
        invariant digits == if position' <= |body| then body[position..position'] else ""
        decreases |body| - position'
      {
        assert body[position..position' + 1] == body[position..position'] + [body[position']];
        digits := digits + [body[position']];
        position' := position' + 1;
      }
    }

    method ParseType(out: string, position: nat) returns (ok: bool, out': string, position': nat)
      requires Running()
      modifies this`failed, this`steps, this`depth
      ensures Did(Type(body, position, old(steps), old(depth)), ok, old(depth), out, position, out', position')
      decreases STEP_LIMIT - steps, 0
    {
      out', position' := out, position;
      ok := Budget();
      if !ok { return; }
      depth := depth + 1;
      ok, out', position' := ParseTypeInner(out, position);
      depth := depth - 1;
    }

    method ParseTypeInner(out: string, position: nat) returns (ok: bool, out': string, position': nat)
      requires Running()
      modifies this`failed, this`steps, this`depth
      ensures Did(TypeInner(body, position, old(steps), old(depth)), ok, old(depth), out, position, out', position')
      decreases STEP_LIMIT - steps, 4
    {
      out', position' := out, position;
      var tag := Peek(body, position);
      var basic := BasicType(tag);
      if basic.Some? {
        return true, out + basic.value, position + 1;
      }
      ok, out', position' := ParseCompoundType(out, position, tag);
    }

    // The second switch of the type routine.
    method ParseCompoundType(out: string, position: nat, tag: char) returns (ok: bool, out': string, position': nat)
      requires Running() && tag == Peek(body, position)
      modifies this`failed, this`steps, this`depth
      ensures Did(CompoundType(body, position, old(steps), old(depth)), ok, old(depth), out, position, out', position')
      decreases STEP_LIMIT - steps, 3
    {
      hide Type, Path, ArrayType, Reference, TupleElements, Base62;
      out', position' := out, position;
      match tag
      case 'A' =>
        ok, out', position' := ParseArray(out, position + 1);
      case 'S' =>
        var element;
        ok, element, position' := ParseType("", position + 1);
        if !ok { return; }
        out' := out' + ("[" + element + "]");
      case 'R' =>
        ok, out', position' := ParseReference(out, position + 1, "&");
      case 'Q' =>
        ok, out', position' := ParseReference(out, position + 1, "&mut ");
      case 'P' =>
        ok, out', position' := ParsePointer(out, position + 1, "*const ");
      case 'O' =>
        ok, out', position' := ParsePointer(out, position + 1, "*mut ");
      case 'T' =>
        ok, out', position' := ParseTuple(out, position + 1);
      case 'B' =>
        var offset, target;
        ok, position', offset := ParseBase62(position + 1);
        if !ok { return; }
        if offset >= |body| {
          failed := true;
          return false, out', position';
        }
        ok, out', target := ParseType(out, offset);
      case _ =>
        if IsPathTag(tag) {
          ok, out', position' := ParsePath(out, position);
        } else {
          failed := true;
          ok := false;
        }
    }

    // The 'A' case.
    method ParseArray(out: string, position: nat) returns (ok: bool, out': string, position': nat)
      requires Running()
      modifies this`failed, this`steps, this`depth
      ensures Did(ArrayType(body, position, old(steps), old(depth)), ok, old(depth), out, position, out', position')
      decreases STEP_LIMIT - steps, 2
    {
      hide Type, Const;
      var element, length;
      out' := out;
      ok, element, position' := ParseType("", position);
      if !ok { return; }
      ok, length, position' := ParseConst("", position');
      if !ok { return; }
      out' := out' + ("[" + element + "; " + length + "]");
    }

    // The part that the 'P' and 'O' cases share.
    method ParsePointer(out: string, position: nat, sigil: string) returns (ok: bool, out': string, position': nat)
      requires Running()
      modifies this`failed, this`steps, this`depth
      ensures Did(Prepend(sigil, Type(body, position, old(steps), old(depth))), ok, old(depth), out, position, out', position')
      decreases STEP_LIMIT - steps, 1
    {
      var pointee;
      out' := out;
      ok, pointee, position' := ParseType("", position);
      if !ok { return; }
      out' := out' + (sigil + pointee);
    }

    // The part that the 'R' and 'Q' cases share.
    method ParseReference(out: string, position: nat, sigil: string) returns (ok: bool, out': string, position': nat)
      requires Running()
      modifies this`failed, this`steps, this`depth
      ensures Did(Reference(body, position, old(steps), old(depth), sigil), ok, old(depth), out, position, out', position')
      decreases STEP_LIMIT - steps, 1
    {
      out', position' := out, position;
      if Peek(body, position') == 'L' {
        var lifetime;
        ok, position', lifetime := ParseBase62(position' + 1);
        if !ok { return; }
      }
      var pointee;
      ok, pointee, position' := ParseType("", position');
      if !ok { return; }
      out' := out' + (sigil + pointee);
    }

    // The 'T' case.
    method ParseTuple(out: string, position: nat) returns (ok: bool, out': string, position': nat)
      requires Running()
      modifies this`failed, this`steps, this`depth
      ensures Did(Prepend("(", TupleElements(body, position, old(steps), old(depth), true)),
                  ok, old(depth), out, position, out', position')
      decreases STEP_LIMIT - steps, 2
    {
      hide TupleElements;
      ghost var elements := TupleElements(body, position, steps, depth, true);
      ok, out', position' := ParseTupleElements(out + "(", position);
      if ok { Associates(out, "(", elements.text); }
    }

    // The loop over the elements of a tuple.
    method ParseTupleElements(out: string, position: nat) returns (ok: bool, out': string, position': nat)
      requires Running()
      modifies this`failed, this`steps, this`depth
      ensures Did(TupleElements(body, position, old(steps), old(depth), true), ok, old(depth), out, position, out', position')
      decreases STEP_LIMIT - steps, 1
    {
      hide Type, TupleElements;
      out', position' := out, position;
      ghost var all := Prepend(out, TupleElements(body, position, steps, depth, true));
      var first := true;
      while Peek(body, position') != 'E' && position' < |body|
        invariant !failed && old(steps) <= steps <= STEP_LIMIT && depth == old(depth)
        invariant all == Prepend(out', TupleElements(body, position', steps, depth, first))
        decreases STEP_LIMIT - steps
      {
        ghost var before, separator := out', if first then "" else ", ";
        ElementsTurn(body, position', steps, depth, first);
        ok := Budget();
        if !ok { return; }
        if !first {
          out' := out' + ", ";
        }
        first := false;
        var element;
        ok, element, position' := ParseType("", position');
        if !ok { return; }
        out' := out' + element;
        assert out' == before + (separator + element);
        PrependTwice(before, separator + element, TupleElements(body, position', steps, depth, false));
      }
      ElementsEnd(body, position', steps, depth, first);
      if Peek(body, position') != 'E' {
        failed := true;
        return false, out', position';
      }
      position' := position' + 1;
      out' := out' + ")";
      ok := true;
    }

    method SkipOptionalDecimal()
      requires pos == 0
      modifies this`pos
      ensures pos == if '1' <= Peek(body, 0) <= '9' then SkipDecimals(body, 0) else 0
    {
      if '1' <= Peek(body, pos) <= '9' {
        while IsDecimal(Peek(body, pos))
          invariant SkipDecimals(body, pos) == SkipDecimals(body, 0)
          decreases |body| - pos
        {
          pos := pos + 1;
        }
      }
    }

    method Start() returns (shown: Option<string>)
      requires Fresh()
      modifies this
      ensures shown == Run(body)
      ensures failed == shown.None? && depth == 0
    {
      SkipOptionalDecimal();
      var ok, out;
      ghost var r := Path(body, pos, 0, 0);
      ok, out, pos := ParsePath("", pos);
      assert r.Done? ==> "" + r.text == r.text;
      if !ok || failed {
        return None;
      }
      return Some(out);
    }
  }

  lemma PrependTwice(a: string, b: string, r: Parse)
    ensures Prepend(a, Prepend(b, r)) == Prepend(a + b, r)
  {
    if r.Done? {
      assert a + (b + r.text) == (a + b) + r.text;
    }
  }

  lemma ElementsTurn(body: Body, p: nat, steps: nat, depth: nat, first: bool)
    requires steps <= STEP_LIMIT && Peek(body, p) != 'E' && p < |body|
    ensures TupleElements(body, p, steps, depth, first)
         == if Exhausted(steps + 1, depth) then Fail(steps + 1)
            else
              var element := Type(body, p, steps + 1, depth);
              if element.Fail? then element
              else Prepend((if first then "" else ", ") + element.text,
                           TupleElements(body, element.next, element.steps, depth, false))
  {
    hide Type, Prepend;
  }

  lemma ElementsEnd(body: Body, p: nat, steps: nat, depth: nat, first: bool)
    requires steps <= STEP_LIMIT
    ensures Peek(body, p) == 'E' ==> TupleElements(body, p, steps, depth, first) == Done(")", p + 1, steps)
    ensures Peek(body, p) != 'E' && p >= |body| ==> TupleElements(body, p, steps, depth, first) == Fail(steps)
  {
    hide Type;
  }

  // The entry point shared by all name displays.
  method DemangleName(name: Body, foreign: string) returns (shown: string)
    ensures shown == Demangle(name, foreign)
    ensures !("_R" <= name) ==> shown == foreign
  {
    if |name| >= 2 && name[0] == '_' && name[1] == 'R' {
      if |name| >= 3 {
        var demangler := new RustV0Demangler(name[2..]);
        var rust := demangler.Start();
        if rust.Some? {
          return rust.value;
        }
      }
      return name;
    }
    return foreign;
  }
}
