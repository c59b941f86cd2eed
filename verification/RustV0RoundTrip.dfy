// Demangling inverts mangling: on every body that holds the mangled form of a tree, with
// or without backreferences, the demangler yields the tree's displayed form and stops
// at the end of the mangled form exactly when the tree fits the budget.

module RustV0RoundTrip {
  import opened Arithmetic
  import opened Common
  import opened Slices
  import opened RustV0Parse
  import opened RustV0Mangle

  // ---------- text at a position ----------

  lemma AtHead(body: string, p: nat, text: string)
    requires At(body, p, text) && text != ""
    ensures p < |body| && Peek(body, p) == text[0]
  {
    AtFirst(body, p, text);
  }

  // ---------- numbers ----------

  lemma DecimalStep(body: string, p: nat, acc: uint64, d: nat)
    requires d < 10 && p < |body| && body[p] == DecimalChar(d)
    ensures DecimalRun(body, p, acc) == DecimalRun(body, p + 1, (acc * 10 + d) % TWO64)
  {
  }

  lemma {:induction false} DecimalScan(body: string, p: nat, n: nat)
    requires At(body, p, DecimalText(n))
    ensures DecimalRun(body, p, 0) == DecimalRun(body, p + |DecimalText(n)|, n % TWO64)
  {
    hide DecimalRun;
    if n < 10 {
      AtHead(body, p, [DecimalChar(n)]);
      DecimalStep(body, p, 0, n);
    } else {
      var q := p + |DecimalText(n / 10)|;
      AtLast(body, p, DecimalText(n / 10), DecimalChar(n % 10));
      DecimalScan(body, p, n / 10);
      DecimalStep(body, q, (n / 10) % TWO64, n % 10);
      AccumulateMod(n / 10, 10, n % 10);
    }
  }

  // One accumulation step commutes with 64-bit wrap-around.
  lemma AccumulateMod(a: nat, base: nat, d: nat)
    ensures (a % TWO64 * base + d) % TWO64 == (a * base + d) % TWO64
  {
    var q, r := a / TWO64, a % TWO64;
    assert a * base + d == (r * base + d) + (q * base) * TWO64;
    ModShift(r * base + d, q * base, TWO64);
  }

  lemma Base62Step(body: string, p: nat, acc: uint64, d: nat)
    requires d < 62 && p < |body| && body[p] == Base62Char(d)
    ensures Base62Run(body, p, acc) == Base62Run(body, p + 1, (acc * 62 + d) % TWO64)
  {
  }

  lemma {:induction false} Base62Scan(body: string, p: nat, n: nat)
    requires At(body, p, Base62Digits(n))
    ensures Base62Run(body, p, 0) == Base62Run(body, p + |Base62Digits(n)|, n % TWO64)
  {
    hide Base62Run, Base62Char;
    if n < 62 {
      AtHead(body, p, [Base62Char(n)]);
      Base62Step(body, p, 0, n);
    } else {
      var q := p + |Base62Digits(n / 62)|;
      AtLast(body, p, Base62Digits(n / 62), Base62Char(n % 62));
      Base62Scan(body, p, n / 62);
      Base62Step(body, q, (n / 62) % TWO64, n % 62);
      AccumulateMod(n / 62, 62, n % 62);
    }
  }

  lemma SuccMod(n: nat)
    ensures (n % TWO64 + 1) % TWO64 == (n + 1) % TWO64
  {
  }

  // The base-62 reader inverts the base-62 writer, up to 64-bit wrap-around, and stops
  // just after the closing underscore.
  lemma Base62RoundTrip(body: string, p: nat, n: nat)
    requires At(body, p, Base62Text(n))
    ensures Base62(body, p) == Some(Number(n % TWO64, p + |Base62Text(n)|))
  {
    hide Base62Digits, Base62Run, Base62;
    if n == 0 {
      Base62Zero(body, p);
    } else {
      var digits := Base62Digits(n - 1);
      Base62Head(n - 1);
      AtConcat(body, p, digits, "_");
      Base62Scan(body, p, n - 1);
      Base62Ends(body, p, digits, (n - 1) % TWO64);
      SuccMod(n - 1);
    }
  }

  lemma Base62Zero(body: string, p: nat)
    requires At(body, p, "_")
    ensures Base62(body, p) == Some(Number(0, p + 1))
  {
    AtHead(body, p, "_");
  }

  lemma Base62Ends(body: string, p: nat, digits: string, value: uint64)
    requires At(body, p, digits + "_") && digits != [] && Base62Digit(digits[0]).Some?
    requires Base62Run(body, p, 0) == Base62Run(body, p + |digits|, value)
    ensures Base62(body, p) == Some(Number((value + 1) % TWO64, p + |digits| + 1))
  {
    AtLast(body, p, digits, '_');
    AtHead(body, p, digits);
    Base62Stop(body, p + |digits|, value);
    assert Base62Digit('_').None?;
    hide Base62Run, Base62Digit;
  }

  lemma Base62Stop(body: string, p: nat, value: uint64)
    requires Peek(body, p) == '_'
    ensures Base62Run(body, p, value) == Number(value, p)
  {
  }

  lemma {:induction false} Base62Head(n: nat)
    ensures Base62Digits(n) != [] && Base62Digit(Base62Digits(n)[0]).Some?
  {
    if n >= 62 { Base62Head(n / 62); }
  }

  // The decimal reader inverts the decimal writer, up to 64-bit wrap-around.
  lemma DecimalRoundTrip(body: string, p: nat, n: nat)
    requires At(body, p, DecimalText(n))
    requires !IsDecimal(Peek(body, p + |DecimalText(n)|))
    ensures Decimal(body, p) == Some(Number(n % TWO64, p + |DecimalText(n)|))
  {
    DecimalScan(body, p, n);
  }

  // ---------- identifiers ----------

  // The length field of an identifier, with its separator.
  function LengthText(id: Ident): string {
    DecimalText(|id.name|) + if id.separator then "_" else ""
  }

  lemma LengthRoundTrip(body: Body, p: nat, id: Ident)
    requires GoodIdent(id) && At(body, p, LengthText(id)) && At(body, p + |LengthText(id)|, id.name)
    requires Closed(OpenIdent(id), body, p + |LengthText(id)| + |id.name|)
    ensures Decimal(body, p) == Some(Number(|id.name|, p + |DecimalText(|id.name|)|))
    ensures (Peek(body, p + |DecimalText(|id.name|)|) == '_') == id.separator
    ensures |LengthText(id)| == |DecimalText(|id.name|)| + if id.separator then 1 else 0
  {
    var length, bar := DecimalText(|id.name|), if id.separator then "_" else "";
    AtConcat(body, p, length, bar);
    if id.separator {
      AtHead(body, p + |length|, bar);
    } else if id.name != "" {
      AtHead(body, p + |length|, id.name);
    }
    DecimalRoundTrip(body, p, |id.name|);
  }

  // Reading the part of an identifier after its disambiguator.
  lemma NameRoundTrip(body: Body, p: nat, id: Ident, steps: nat)
    requires GoodIdent(id) && At(body, p, MangleName(id))
    requires Closed(OpenIdent(id), body, p + |MangleName(id)|)
    ensures IdentifierTail(body, p, steps) == Done(id.name, p + |MangleName(id)|, steps)
  {
    hide IdentifierTail, Decimal, DecimalText, MangleName, LengthText, GoodIdent, OpenIdent, Closed;
    var q := p + if id.punycode then 1 else 0;
    NameParts(body, p, id);
    LengthRoundTrip(body, q, id);
    TailReads(body, p, id.punycode, |id.name|, q + |DecimalText(|id.name|)|, id.separator, steps);
  }

  lemma TailReads(body: Body, p: nat, punycode: bool, length: uint64, after: nat, separator: bool, steps: nat)
    requires (Peek(body, p) == 'u') == punycode
    requires Decimal(body, p + if punycode then 1 else 0) == Some(Number(length, after))
    requires (Peek(body, after) == '_') == separator
    requires after + (if separator then 1 else 0) + length <= |body|
    ensures var start := after + if separator then 1 else 0;
      IdentifierTail(body, p, steps) == Done(body[start..start + length], start + length, steps)
  {
    hide Decimal;
  }

  lemma NameParts(body: string, p: nat, id: Ident)
    requires At(body, p, MangleName(id))
    ensures var q := p + if id.punycode then 1 else 0;
      && At(body, q, LengthText(id))
      && At(body, q + |LengthText(id)|, id.name)
      && q + |LengthText(id)| + |id.name| == p + |MangleName(id)|
      && (Peek(body, p) == 'u') == id.punycode
  {
    var u := if id.punycode then "u" else "";
    assert MangleName(id) == u + (LengthText(id) + id.name);
    AtConcat(body, p, u, LengthText(id) + id.name);
    AtConcat(body, p + |u|, LengthText(id), id.name);
    AtHead(body, p, MangleName(id));
  }

  lemma IdentRoundTrip(body: Body, p: nat, id: Ident, steps: nat, depth: nat)
    requires steps <= STEP_LIMIT
    requires GoodIdent(id) && At(body, p, MangleIdent(id))
    requires Closed(OpenIdent(id), body, p + |MangleIdent(id)|)
    ensures Identifier(body, p, steps, depth)
         == if Fits(1, 0, steps, depth) then Done(id.name, p + |MangleIdent(id)|, steps + 1) else Fail(steps + 1)
  {
    hide Base62, IdentifierTail, Base62Text, MangleName, DecimalText, OpenIdent, GoodIdent;
    if id.disambiguator.Some? {
      DisambiguatorParts(body, p, id);
      Base62RoundTrip(body, p + 1, id.disambiguator.value);
      NameRoundTrip(body, p + 1 + |Base62Text(id.disambiguator.value)|, id, steps + 1);
    } else {
      NameHead(id);
      assert MangleIdent(id) == MangleName(id);
      AtHead(body, p, MangleName(id));
      NameRoundTrip(body, p, id, steps + 1);
    }
  }

  lemma DisambiguatorParts(body: string, p: nat, id: Ident)
    requires id.disambiguator.Some? && At(body, p, MangleIdent(id))
    ensures var number := Base62Text(id.disambiguator.value);
      && Peek(body, p) == 's'
      && At(body, p + 1, number)
      && At(body, p + 1 + |number|, MangleName(id))
      && p + 1 + |number| + |MangleName(id)| == p + |MangleIdent(id)|
  {
    var number := Base62Text(id.disambiguator.value);
    assert MangleIdent(id) == "s" + (number + MangleName(id));
    AtConcat(body, p, "s", number + MangleName(id));
    AtConcat(body, p + 1, number, MangleName(id));
    AtHead(body, p, "s");
  }

  lemma NameHead(id: Ident)
    ensures MangleName(id) != "" && MangleName(id)[0] != 's'
    ensures !id.punycode ==> IsDecimal(MangleName(id)[0])
  {
  }

  // ---------- first characters ----------

  lemma {:induction false} PathHead(p: PathTree)
    ensures ManglePath(p) != ""
    ensures var c := ManglePath(p)[0];
      if p.PathRef? then c == 'B' else if p.Numbered? then c == 's' else IsPathTag(c)
  {
  }

  lemma {:induction false} TypeHead(body: string, t: TypeTree)
    requires GoodType(body, t)
    ensures MangleType(t) != ""
    ensures var c := MangleType(t)[0];
      && !IsDecimal(c) && c != '_' && c != 'L' && c != 'K' && c != 'E'
      && (t != Basic(Inferred) ==> c != 'p')
  {
    if t.Named? { PathHead(t.path); }
  }

  lemma ArgHead(body: string, a: Arg)
    requires GoodArg(body, a)
    ensures MangleArg(a) != ""
    ensures var c := MangleArg(a)[0]; !IsDecimal(c) && c != '_' && c != 'E'
  {
    if a.TypeArg? { TypeHead(body, a.ty); }
  }

  lemma IdentHead(id: Ident)
    ensures MangleIdent(id) != ""
    ensures var c := MangleIdent(id)[0]; c != '_' && (IsDecimal(c) <==> StartsWithDigit(id))
  {
    NameHead(id);
    if id.disambiguator.Some? {
      assert MangleIdent(id)[0] == 's';
    } else {
      assert MangleIdent(id) == MangleName(id);
    }
  }

  // A letter after a tree that ends in a bare "0" is safe.
  lemma ClosedBy(open: bool, body: string, p: nat, text: string)
    requires At(body, p, text) && text != ""
    requires open ==> !IsDecimal(text[0]) && text[0] != '_'
    ensures Closed(open, body, p)
  {
    AtHead(body, p, text);
  }

  // ---------- the round trip ----------

  // A routine given a tree that fits yields its text and stops at its end; given one that
  // does not fit, it fails.
  predicate Yields(r: Parse, fits: bool, text: string, next: nat, steps: nat) {
    if fits then r == Done(text, next, steps) else r.Fail?
  }

  predicate PathYields(r: Parse, p: PathTree, pos: nat, steps: nat, depth: nat) {
    Yields(r, Fits(CostPath(p), NestPath(p), steps, depth), ShowPath(p), pos + |ManglePath(p)|, steps + CostPath(p))
  }

  predicate TypeYields(r: Parse, t: TypeTree, pos: nat, steps: nat, depth: nat) {
    Yields(r, Fits(CostType(t), NestType(t), steps, depth), ShowType(t), pos + |MangleType(t)|, steps + CostType(t))
  }

  predicate ConstYields(r: Parse, c: ConstTree, pos: nat, steps: nat, depth: nat) {
    Yields(r, c.Placeholder? || Fits(CostConst(c), NestConst(c), steps, depth),
           ShowConst(c), pos + |MangleConst(c)|, steps + CostConst(c))
  }

  // The body holds this tree's mangled form at pos, and what follows does not blur its end.
  predicate HoldsPath(body: string, pos: nat, p: PathTree) {
    GoodPath(body, p) && At(body, pos, ManglePath(p)) && Closed(OpenPath(p), body, pos + |ManglePath(p)|)
  }

  predicate HoldsType(body: string, pos: nat, t: TypeTree) {
    GoodType(body, t) && At(body, pos, MangleType(t)) && Closed(OpenType(t), body, pos + |MangleType(t)|)
  }

  predicate HoldsIdent(body: string, pos: nat, id: Ident) {
    GoodIdent(id) && At(body, pos, MangleIdent(id)) && Closed(OpenIdent(id), body, pos + |MangleIdent(id)|)
  }

  predicate HoldsArgs(body: string, pos: nat, args: Args) {
    GoodArgs(body, args) && At(body, pos, MangleArgs(args) + "E")
  }

  predicate HoldsTypes(body: string, pos: nat, types: Types) {
    GoodTypes(body, types) && At(body, pos, MangleTypes(types) + "E")
  }

  predicate HoldsConst(body: string, pos: nat, c: ConstTree) {
    GoodConst(body, c) && At(body, pos, MangleConst(c))
  }

  predicate HoldsArg(body: string, pos: nat, a: Arg) {
    GoodArg(body, a) && At(body, pos, MangleArg(a)) && Closed(OpenArg(a), body, pos + |MangleArg(a)|)
  }

  // ---------- where the parts of a tree stand ----------

  // One or two letters, a text, and another text that starts with a letter.
  lemma TextParts(body: string, pos: nat, letters: string, a: string, b: string)
    requires letters != "" && At(body, pos, letters + (a + b))
    requires b != "" && !IsDecimal(b[0]) && b[0] != '_'
    ensures Peek(body, pos) == letters[0]
    ensures At(body, pos + |letters|, a) && At(body, pos + |letters| + |a|, b)
    ensures Closed(true, body, pos + |letters| + |a|)
  {
    AtConcat3(body, pos, letters, a, b);
    AtHead(body, pos, letters);
    AtHead(body, pos + |letters| + |a|, b);
  }

  lemma CrateParts(body: string, pos: nat, p: PathTree)
    requires p.Crate? && HoldsPath(body, pos, p)
    ensures Peek(body, pos) == 'C' && HoldsIdent(body, pos + 1, p.id)
    ensures |ManglePath(p)| == 1 + |MangleIdent(p.id)|
  {
    hide BasicCode, BasicName, BasicType, MangleIdent;
    AtConcat(body, pos, "C", MangleIdent(p.id));
    AtHead(body, pos, "C");
  }

  lemma NestedParts(body: string, pos: nat, p: PathTree)
    requires p.Nested? && HoldsPath(body, pos, p)
    ensures Peek(body, pos) == 'N' && HoldsPath(body, pos + 2, p.parent)
    ensures HoldsIdent(body, pos + 2 + |ManglePath(p.parent)|, p.id)
    ensures |ManglePath(p)| == 2 + |ManglePath(p.parent)| + |MangleIdent(p.id)|
  {
    hide BasicCode, BasicName, BasicType, MangleIdent, ManglePath, At, OpenPath, OpenIdent, GoodPath, GoodIdent, StartsWithDigit;
    var parent, id := ManglePath(p.parent), MangleIdent(p.id);
    NestedShape(body, p);
    IdentHead(p.id);
    AtConcat3(body, pos, ['N', p.ns], parent, id);
    AtHead(body, pos, ['N', p.ns]);
    if OpenPath(p.parent) {
      ClosedBy(true, body, pos + 2 + |parent|, id);
    }
  }

  lemma NestedShape(body: string, p: PathTree)
    requires p.Nested? && GoodPath(body, p)
    ensures GoodPath(body, p.parent) && GoodIdent(p.id) && !(OpenPath(p.parent) && StartsWithDigit(p.id))
    ensures ManglePath(p) == ['N', p.ns] + (ManglePath(p.parent) + MangleIdent(p.id))
    ensures OpenPath(p) == OpenIdent(p.id)
  {
  }

  lemma GenericParts(body: string, pos: nat, p: PathTree)
    requires p.Generic? && HoldsPath(body, pos, p)
    ensures Peek(body, pos) == 'I' && HoldsPath(body, pos + 1, p.base)
    ensures HoldsArgs(body, pos + 1 + |ManglePath(p.base)|, p.args)
    ensures |ManglePath(p)| == 1 + |ManglePath(p.base)| + |MangleArgs(p.args)| + 1
  {
    ArgsHead(body, p.args);
    hide BasicCode, BasicName, BasicType, At;
    TextParts(body, pos, "I", ManglePath(p.base), MangleArgs(p.args) + "E");
  }

  lemma ArgsHead(body: string, args: Args)
    requires GoodArgs(body, args)
    ensures var c := (MangleArgs(args) + "E")[0]; !IsDecimal(c) && c != '_'
  {
    if args.MoreArgs? { ArgHead(body, args.head); }
  }

  lemma TypesHead(body: string, types: Types)
    requires GoodTypes(body, types)
    ensures var c := (MangleTypes(types) + "E")[0]; !IsDecimal(c) && c != '_'
  {
    if types.MoreTypes? { TypeHead(body, types.head); }
  }

  // A type followed by a path.
  lemma TypePathParts(body: string, pos: nat, self: TypeTree, of: PathTree)
    requires GoodType(body, self) && GoodPath(body, of)
    requires At(body, pos, MangleType(self) + ManglePath(of))
    requires Closed(OpenPath(of), body, pos + |MangleType(self)| + |ManglePath(of)|)
    ensures HoldsType(body, pos, self) && HoldsPath(body, pos + |MangleType(self)|, of)
  {
    PathHead(of);
    hide BasicCode, BasicName, BasicType, MangleType, ManglePath;
    AtConcat(body, pos, MangleType(self), ManglePath(of));
    ClosedBy(OpenType(self), body, pos + |MangleType(self)|, ManglePath(of));
  }

  lemma ImplShape(body: string, p: PathTree)
    requires (p.InherentImpl? || p.TraitImpl?) && GoodPath(body, p)
    ensures GoodPath(body, p.impl) && GoodType(body, p.self)
    ensures p.InherentImpl? ==>
      ManglePath(p) == "M" + (ManglePath(p.impl) + MangleType(p.self)) && OpenPath(p) == OpenType(p.self)
    ensures p.TraitImpl? ==>
      && GoodPath(body, p.of) && OpenPath(p) == OpenPath(p.of)
      && ManglePath(p) == "X" + (ManglePath(p.impl) + (MangleType(p.self) + ManglePath(p.of)))
  {
  }

  lemma InherentParts(body: string, pos: nat, p: PathTree)
    requires p.InherentImpl? && HoldsPath(body, pos, p)
    ensures Peek(body, pos) == 'M' && HoldsPath(body, pos + 1, p.impl)
    ensures HoldsType(body, pos + 1 + |ManglePath(p.impl)|, p.self)
    ensures |ManglePath(p)| == 1 + |ManglePath(p.impl)| + |MangleType(p.self)|
  {
    hide BasicCode, BasicName, BasicType, At, ManglePath, MangleType, OpenPath, OpenType, GoodPath, GoodType;
    ImplShape(body, p);
    TypeHead(body, p.self);
    TextParts(body, pos, "M", ManglePath(p.impl), MangleType(p.self));
  }

  lemma TraitImplParts(body: string, pos: nat, p: PathTree)
    requires p.TraitImpl? && HoldsPath(body, pos, p)
    ensures Peek(body, pos) == 'X' && HoldsPath(body, pos + 1, p.impl)
    ensures var q := pos + 1 + |ManglePath(p.impl)|;
      HoldsType(body, q, p.self) && HoldsPath(body, q + |MangleType(p.self)|, p.of)
    ensures |ManglePath(p)| == 1 + |ManglePath(p.impl)| + |MangleType(p.self)| + |ManglePath(p.of)|
  {
    hide BasicCode, BasicName, BasicType, At, ManglePath, MangleType, OpenPath, OpenType, GoodPath, GoodType;
    var impl, self, of := ManglePath(p.impl), MangleType(p.self), ManglePath(p.of);
    ImplShape(body, p);
    TypeHead(body, p.self);
    assert (self + of)[0] == self[0];
    TextParts(body, pos, "X", impl, self + of);
    TypePathParts(body, pos + 1 + |impl|, p.self, p.of);
  }

  lemma TraitDefinitionParts(body: string, pos: nat, p: PathTree)
    requires p.TraitDefinition? && HoldsPath(body, pos, p)
    ensures Peek(body, pos) == 'Y' && HoldsType(body, pos + 1, p.self)
    ensures HoldsPath(body, pos + 1 + |MangleType(p.self)|, p.of)
    ensures |ManglePath(p)| == 1 + |MangleType(p.self)| + |ManglePath(p.of)|
  {
    var rest := MangleType(p.self) + ManglePath(p.of);
    assert ManglePath(p) == "Y" + rest;
    hide BasicCode, BasicName, BasicType, ManglePath, MangleType;
    AtConcat(body, pos, "Y", rest);
    AtHead(body, pos, "Y");
    TypePathParts(body, pos + 1, p.self, p.of);
  }

  lemma ReferenceParts(body: Body, pos: nat, at: nat)
    requires At(body, pos, "B" + Base62Text(at)) && at < |body|
    ensures Peek(body, pos) == 'B'
    ensures Base62(body, pos + 1) == Some(Number(at, pos + 1 + |Base62Text(at)|))
  {
    hide BasicCode, BasicName, BasicType, Base62, Base62Text;
    AtConcat(body, pos, "B", Base62Text(at));
    AtHead(body, pos, "B");
    Base62RoundTrip(body, pos + 1, at);
  }

  // A type constructor of one letter and one operand that ends the mangled form.
  lemma PrefixParts(body: string, pos: nat, prefix: string, t: TypeTree)
    requires prefix != "" && GoodType(body, t)
    requires At(body, pos, prefix + MangleType(t)) && Closed(OpenType(t), body, pos + |prefix + MangleType(t)|)
    ensures Peek(body, pos) == prefix[0] && At(body, pos, prefix) && HoldsType(body, pos + |prefix|, t)
  {
    hide BasicCode, BasicName, BasicType, MangleType;
    AtConcat(body, pos, prefix, MangleType(t));
    AtHead(body, pos, prefix);
  }

  lemma ArrayParts(body: string, pos: nat, t: TypeTree)
    requires t.Array? && HoldsType(body, pos, t)
    ensures Peek(body, pos) == 'A' && HoldsType(body, pos + 1, t.element)
    ensures HoldsConst(body, pos + 1 + |MangleType(t.element)|, t.length)
    ensures |MangleType(t)| == 1 + |MangleType(t.element)| + |MangleConst(t.length)|
  {
    ConstHead(body, t.length);
    hide BasicCode, BasicName, BasicType, At, MangleConst;
    TextParts(body, pos, "A", MangleType(t.element), MangleConst(t.length));
  }

  lemma ConstHead(body: string, c: ConstTree)
    requires GoodConst(body, c)
    ensures MangleConst(c) != ""
    ensures var h := MangleConst(c)[0]; !IsDecimal(h) && h != '_' && (c.Value? ==> h != 'p')
  {
    if c.Value? { TypeHead(body, c.ty); }
  }

  lemma TupleParts(body: string, pos: nat, t: TypeTree)
    requires t.Tuple? && HoldsType(body, pos, t)
    ensures Peek(body, pos) == 'T' && HoldsTypes(body, pos + 1, t.elements)
    ensures |MangleType(t)| == 1 + |MangleTypes(t.elements)| + 1
  {
    var elements := MangleTypes(t.elements) + "E";
    assert MangleType(t) == "T" + elements;
    hide BasicCode, BasicName, BasicType, MangleType, MangleTypes;
    AtConcat(body, pos, "T", elements);
    AtHead(body, pos, "T");
  }

  lemma ArgsParts(body: string, pos: nat, args: Args)
    requires HoldsArgs(body, pos, args)
    ensures pos < |body|
    ensures args.NoArgs? ==> Peek(body, pos) == 'E'
    ensures args.MoreArgs? ==>
      && Peek(body, pos) != 'E'
      && HoldsArg(body, pos, args.head)
      && HoldsArgs(body, pos + |MangleArg(args.head)|, args.tail)
      && |MangleArgs(args)| == |MangleArg(args.head)| + |MangleArgs(args.tail)|
  {
    AtHead(body, pos, MangleArgs(args) + "E");
    if args.MoreArgs? {
      var head, rest := MangleArg(args.head), MangleArgs(args.tail) + "E";
      Associates(head, MangleArgs(args.tail), "E");
      ArgHead(body, args.head);
      ArgsHead(body, args.tail);
      hide MangleArg, MangleArgs, At, Closed, OpenArg, GoodArg;
      AtConcat(body, pos, head, rest);
      AtHead(body, pos, head);
      ClosedBy(OpenArg(args.head), body, pos + |head|, rest);
    }
  }

  lemma TypesParts(body: string, pos: nat, types: Types)
    requires HoldsTypes(body, pos, types)
    ensures pos < |body|
    ensures types.NoTypes? ==> Peek(body, pos) == 'E'
    ensures types.MoreTypes? ==>
      && Peek(body, pos) != 'E'
      && HoldsType(body, pos, types.head)
      && HoldsTypes(body, pos + |MangleType(types.head)|, types.tail)
      && |MangleTypes(types)| == |MangleType(types.head)| + |MangleTypes(types.tail)|
  {
    hide BasicCode, BasicName, BasicType, MangleType, At, Closed, OpenType, GoodType;
    AtHead(body, pos, MangleTypes(types) + "E");
    if types.MoreTypes? {
      var head, rest := MangleType(types.head), MangleTypes(types.tail) + "E";
      Associates(head, MangleTypes(types.tail), "E");
      TypeHead(body, types.head);
      TypesHead(body, types.tail);
      hide MangleTypes;
      AtConcat(body, pos, head, rest);
      AtHead(body, pos, head);
      ClosedBy(OpenType(types.head), body, pos + |head|, rest);
    }
  }

  lemma ValueParts(body: string, pos: nat, c: ConstTree)
    requires c.Value? && HoldsConst(body, pos, c)
    ensures Peek(body, pos) != 'p' && HoldsType(body, pos, c.ty)
    ensures At(body, pos + |MangleType(c.ty)|, MangleValue(c))
    ensures |MangleConst(c)| == |MangleType(c.ty)| + (if c.negative then 1 else 0) + |c.digits| + 1
  {
    TypeHead(body, c.ty);
    hide BasicCode, BasicName, BasicType, MangleType, GoodType, OpenType, At;
    AtConcat(body, pos, MangleType(c.ty), MangleValue(c));
    AtHead(body, pos, MangleType(c.ty));
    if OpenType(c.ty) {
      assert !c.negative ==> IsHexDigit(c.digits[0]);
      ClosedBy(true, body, pos + |MangleType(c.ty)|, MangleValue(c));
    }
  }

  lemma {:induction false} DigitsScan(body: string, p: nat, digits: string)
    requires At(body, p, digits + "_") && forall i | 0 <= i < |digits| :: digits[i] != '_'
    ensures DigitsEnd(body, p) == p + |digits| && Digits(body, p) == digits
    decreases |digits|
  {
    AtLast(body, p, digits, '_');
    if digits != "" {
      AtHead(body, p, digits);
      assert digits + "_" == digits[..1] + (digits[1..] + "_");
      AtConcat(body, p, digits[..1], digits[1..] + "_");
      DigitsScan(body, p + 1, digits[1..]);
    }
  }

  // ---------- the induction ----------

  lemma {:induction false} PathRoundTrip(body: Body, pos: nat, p: PathTree, steps: nat, depth: nat)
    requires steps <= STEP_LIMIT && HoldsPath(body, pos, p)
    ensures PathYields(Path(body, pos, steps, depth), p, pos, steps, depth)
    decreases p, 3
  {
    CostPathPositive(p);
    hide PathInner, ShowPath, ManglePath, CostPath, NestPath, HoldsPath;
    if !Exhausted(steps + 1, depth) {
      PathInnerRoundTrip(body, pos, p, steps + 1, depth + 1);
    }
  }

  lemma CostPathPositive(p: PathTree)
    ensures CostPath(p) > 0
  {
  }

  lemma CostTypePositive(t: TypeTree)
    ensures CostType(t) > 0
  {
  }

  lemma {:induction false} PathInnerRoundTrip(body: Body, pos: nat, p: PathTree, steps: nat, depth: nat)
    requires 0 < steps <= STEP_LIMIT && 0 < depth && HoldsPath(body, pos, p)
    ensures PathYields(PathInner(body, pos, steps, depth), p, pos, steps - 1, depth - 1)
    decreases p, 2
  {
    hide BasicCode, BasicName, BasicType, PathInner, PathYields, HoldsPath;
    match p
    case Crate(_) => CrateRoundTrip(body, pos, p, steps, depth);
    case Nested(_, _, _) => NestedRoundTrip(body, pos, p, steps, depth);
    case Generic(_, _) => GenericRoundTrip(body, pos, p, steps, depth);
    case InherentImpl(_, _) => InherentRoundTrip(body, pos, p, steps, depth);
    case TraitImpl(_, _, _) => TraitImplRoundTrip(body, pos, p, steps, depth);
    case TraitDefinition(_, _) => TraitDefinitionRoundTrip(body, pos, p, steps, depth);
    case PathRef(_, _) => PathRefRoundTrip(body, pos, p, steps, depth);
    case Numbered(_, _) => NumberedIsRefused(body, pos, p, steps, depth);
  }

  // No path begins with a disambiguator.
  lemma NumberedIsRefused(body: Body, pos: nat, p: PathTree, steps: nat, depth: nat)
    requires p.Numbered? && 0 < steps <= STEP_LIMIT && 0 < depth && HoldsPath(body, pos, p)
    ensures PathYields(PathInner(body, pos, steps, depth), p, pos, steps - 1, depth - 1)
  {
    PathHead(p);
    AtHead(body, pos, ManglePath(p));
  }

  lemma CrateRoundTrip(body: Body, pos: nat, p: PathTree, steps: nat, depth: nat)
    requires p.Crate? && 0 < steps <= STEP_LIMIT && 0 < depth && HoldsPath(body, pos, p)
    ensures PathYields(PathInner(body, pos, steps, depth), p, pos, steps - 1, depth - 1)
  {
    hide BasicCode, BasicName, BasicType, Identifier, MangleIdent, At, Closed;
    CrateParts(body, pos, p);
    IdentRoundTrip(body, pos + 1, p.id, steps, depth);
  }

  lemma {:induction false} NestedRoundTrip(body: Body, pos: nat, p: PathTree, steps: nat, depth: nat)
    requires p.Nested? && 0 < steps <= STEP_LIMIT && 0 < depth && HoldsPath(body, pos, p)
    ensures PathYields(PathInner(body, pos, steps, depth), p, pos, steps - 1, depth - 1)
    decreases p, 1
  {
    hide BasicCode, BasicName, BasicType, Path, Identifier, MangleIdent, HoldsPath;
    NestedParts(body, pos, p);
    PathRoundTrip(body, pos + 2, p.parent, steps, depth);
    var parent := Path(body, pos + 2, steps, depth);
    if parent.Done? {
      IdentRoundTrip(body, parent.next, p.id, parent.steps, depth);
    }
  }

  lemma {:induction false} GenericRoundTrip(body: Body, pos: nat, p: PathTree, steps: nat, depth: nat)
    requires p.Generic? && 0 < steps <= STEP_LIMIT && 0 < depth && HoldsPath(body, pos, p)
    ensures PathYields(PathInner(body, pos, steps, depth), p, pos, steps - 1, depth - 1)
    decreases p, 1
  {
    hide BasicCode, BasicName, BasicType, Path, GenericArgs, HoldsPath, HoldsArgs;
    GenericParts(body, pos, p);
    PathRoundTrip(body, pos + 1, p.base, steps, depth);
    var base := Path(body, pos + 1, steps, depth);
    if base.Done? {
      ArgsRoundTrip(body, base.next, p.args, base.steps, depth, true);
    }
    assert CostPath(p) == 1 + CostPath(p.base) + CostArgs(p.args);
    assert NestPath(p) == 1 + Max(NestPath(p.base), NestArgs(p.args));
    assert p.args.NoArgs? ==> CostArgs(p.args) == NestArgs(p.args) == 0;
  }

  lemma {:induction false} InherentRoundTrip(body: Body, pos: nat, p: PathTree, steps: nat, depth: nat)
    requires p.InherentImpl? && 0 < steps <= STEP_LIMIT && 0 < depth && HoldsPath(body, pos, p)
    ensures PathYields(PathInner(body, pos, steps, depth), p, pos, steps - 1, depth - 1)
    decreases p, 1
  {
    hide BasicCode, BasicName, BasicType, Path, Type, HoldsPath, HoldsType;
    InherentParts(body, pos, p);
    PathRoundTrip(body, pos + 1, p.impl, steps, depth);
    var impl := Path(body, pos + 1, steps, depth);
    if impl.Done? {
      TypeRoundTrip(body, impl.next, p.self, impl.steps, depth);
    }
  }

  // What the letters of the two trait forms make the reader do.
  lemma TraitTurn(body: Body, pos: nat, steps: nat, depth: nat)
    requires steps <= STEP_LIMIT
    ensures Peek(body, pos) == 'Y' ==> PathInner(body, pos, steps, depth) == TypeAsTrait(body, pos + 1, steps, depth)
    ensures Peek(body, pos) == 'X' ==>
      var impl := Path(body, pos + 1, steps, depth);
      PathInner(body, pos, steps, depth)
      == if impl.Fail? then impl else TypeAsTrait(body, impl.next, impl.steps, depth)
  {
    hide Path, TypeAsTrait, Identifier, NestedPath, GenericArgs, Base62, Type;
  }

  lemma TraitMeasures(p: PathTree)
    requires p.TraitImpl? || p.TraitDefinition?
    ensures ShowPath(p) == "<" + ShowType(p.self) + " as " + ShowPath(p.of) + ">"
    ensures CostPath(p) == 1 + (if p.TraitImpl? then CostPath(p.impl) else 0) + CostType(p.self) + CostPath(p.of)
    ensures var own := Max(NestType(p.self), NestPath(p.of));
      NestPath(p) == 1 + if p.TraitImpl? then Max(NestPath(p.impl), own) else own
  {
  }

  lemma {:induction false} TraitImplRoundTrip(body: Body, pos: nat, p: PathTree, steps: nat, depth: nat)
    requires p.TraitImpl? && 0 < steps <= STEP_LIMIT && 0 < depth && HoldsPath(body, pos, p)
    ensures PathYields(PathInner(body, pos, steps, depth), p, pos, steps - 1, depth - 1)
    decreases p, 1
  {
    hide PathInner, Path, TypeAsTrait, HoldsPath, HoldsType, ShowPath, ShowType, CostPath, CostType, NestPath, NestType,
      ManglePath, MangleType, Peek;
    TraitImplParts(body, pos, p);
    TraitTurn(body, pos, steps, depth);
    TraitMeasures(p);
    PathRoundTrip(body, pos + 1, p.impl, steps, depth);
    var impl := Path(body, pos + 1, steps, depth);
    if impl.Done? {
      TypeAsTraitRoundTrip(body, impl.next, p, impl.steps, depth);
    }
  }

  lemma {:induction false} TraitDefinitionRoundTrip(body: Body, pos: nat, p: PathTree, steps: nat, depth: nat)
    requires p.TraitDefinition? && 0 < steps <= STEP_LIMIT && 0 < depth && HoldsPath(body, pos, p)
    ensures PathYields(PathInner(body, pos, steps, depth), p, pos, steps - 1, depth - 1)
    decreases p, 1
  {
    hide PathInner, Path, TypeAsTrait, HoldsPath, HoldsType, ShowPath, ShowType, CostPath, CostType, NestPath, NestType,
      ManglePath, MangleType, Peek;
    TraitDefinitionParts(body, pos, p);
    TraitTurn(body, pos, steps, depth);
    TraitMeasures(p);
    TypeAsTraitRoundTrip(body, pos + 1, p, steps, depth);
  }

  lemma {:induction false} TypeAsTraitRoundTrip(body: Body, pos: nat, p: PathTree, steps: nat, depth: nat)
    requires (p.TraitImpl? || p.TraitDefinition?) && steps <= STEP_LIMIT
    requires HoldsType(body, pos, p.self) && HoldsPath(body, pos + |MangleType(p.self)|, p.of)
    ensures Yields(TypeAsTrait(body, pos, steps, depth),
                   Fits(CostType(p.self) + CostPath(p.of), Max(NestType(p.self), NestPath(p.of)), steps, depth),
                   "<" + ShowType(p.self) + " as " + ShowPath(p.of) + ">",
                   pos + |MangleType(p.self)| + |ManglePath(p.of)|, steps + CostType(p.self) + CostPath(p.of))
    decreases p, 0
  {
    hide Path, Type, HoldsPath, HoldsType, ShowPath, ShowType, CostPath, CostType, NestPath, NestType, ManglePath,
      MangleType, Peek;
    TypeRoundTrip(body, pos, p.self, steps, depth);
    var ty := Type(body, pos, steps, depth);
    if ty.Done? {
      PathRoundTrip(body, ty.next, p.of, ty.steps, depth);
    }
  }

  lemma {:induction false} PathRefRoundTrip(body: Body, pos: nat, p: PathTree, steps: nat, depth: nat)
    requires p.PathRef? && 0 < steps <= STEP_LIMIT && 0 < depth && HoldsPath(body, pos, p)
    ensures PathYields(PathInner(body, pos, steps, depth), p, pos, steps - 1, depth - 1)
    decreases p, 1
  {
    hide BasicCode, BasicName, BasicType, Path, Base62, Base62Text;
    PathHead(p.target);
    AtHead(body, p.at, ManglePath(p.target));
    ReferenceParts(body, pos, p.at);
    hide BasicCode, BasicName, BasicType, At, Closed;
    PathRoundTrip(body, p.at, p.target, steps, depth);
  }

  lemma {:induction false} TypeRoundTrip(body: Body, pos: nat, t: TypeTree, steps: nat, depth: nat)
    requires steps <= STEP_LIMIT && HoldsType(body, pos, t)
    ensures TypeYields(Type(body, pos, steps, depth), t, pos, steps, depth)
    decreases t, 3
  {
    CostTypePositive(t);
    if !Exhausted(steps + 1, depth) {
      TypeInnerRoundTrip(body, pos, t, steps + 1, depth + 1);
    }
  }

  lemma {:induction false} TypeInnerRoundTrip(body: Body, pos: nat, t: TypeTree, steps: nat, depth: nat)
    requires 0 < steps <= STEP_LIMIT && 0 < depth <= DEPTH_LIMIT + 1 && HoldsType(body, pos, t)
    ensures TypeYields(TypeInner(body, pos, steps, depth), t, pos, steps - 1, depth - 1)
    decreases t, 2
  {
    if t.Basic? {
      AtHead(body, pos, MangleType(t));
      BasicRoundTrip(t.kind);
    } else {
      CompoundRoundTrip(body, pos, t, steps, depth);
    }
  }

  // Every basic type is shown for its letter.
  lemma BasicRoundTrip(kind: BasicKind)
    ensures BasicType(BasicCode(kind)) == Some(BasicName(kind))
  {
  }

  // And nothing for any other character.
  lemma OnlyBasicLetters(tag: char)
    ensures BasicType(tag).Some? <==> exists kind :: BasicCode(kind) == tag
  {
    if BasicType(tag).Some? {
      assert BasicCode(KindOf(tag)) == tag;
    } else if kind :| BasicCode(kind) == tag {
      BasicRoundTrip(kind);
    }
  }

  function KindOf(tag: char): BasicKind {
    match tag
    case 'a' => I8
    case 'b' => Bool
    case 'c' => Char
    case 'd' => F64
    case 'e' => Str
    case 'f' => F32
    case 'h' => U8
    case 'i' => Isize
    case 'j' => Usize
    case 'l' => I32
    case 'm' => U32
    case 'n' => I128
    case 'o' => U128
    case 'p' => Inferred
    case 's' => I16
    case 't' => U16
    case 'u' => Unit
    case 'x' => I64
    case 'y' => U64
    case _ => Never
  }

  // The letter of a constructed type, and the routine it selects.
  lemma {:induction false} CompoundRoundTrip(body: Body, pos: nat, t: TypeTree, steps: nat, depth: nat)
    requires !t.Basic? && 0 < steps <= STEP_LIMIT && 0 < depth <= DEPTH_LIMIT + 1 && HoldsType(body, pos, t)
    ensures BasicType(Peek(body, pos)).None?
    ensures TypeYields(CompoundType(body, pos, steps, depth), t, pos, steps - 1, depth - 1)
    decreases t, 1
  {
    hide BasicCode, BasicName, CompoundType, TypeYields, HoldsType, Peek;
    match t
    case Array(_, _) => ArrayRoundTrip(body, pos, t, steps, depth);
    case Slice(_) => SliceRoundTrip(body, pos, t, steps, depth);
    case Ref(_, _, _) => RefRoundTrip(body, pos, t, steps, depth);
    case Ptr(_, _) => PtrRoundTrip(body, pos, t, steps, depth);
    case Tuple(_) => TupleRoundTrip(body, pos, t, steps, depth);
    case Named(_) => NamedRoundTrip(body, pos, t, steps, depth);
    case TypeRef(_, _) => TypeRefRoundTrip(body, pos, t, steps, depth);
  }

  lemma {:induction false} ArrayRoundTrip(body: Body, pos: nat, t: TypeTree, steps: nat, depth: nat)
    requires t.Array? && 0 < steps <= STEP_LIMIT && 0 < depth && HoldsType(body, pos, t)
    ensures Peek(body, pos) == 'A'
    ensures TypeYields(CompoundType(body, pos, steps, depth), t, pos, steps - 1, depth - 1)
    decreases t, 0
  {
    hide BasicCode, BasicName, BasicType, Type, Const, HoldsType, HoldsConst;
    ArrayParts(body, pos, t);
    TypeRoundTrip(body, pos + 1, t.element, steps, depth);
    var element := Type(body, pos + 1, steps, depth);
    if element.Done? {
      ConstRoundTrip(body, element.next, t.length, element.steps, depth);
    }
    assert CostType(t) == 1 + CostType(t.element) + CostConst(t.length);
    assert NestType(t) == 1 + Max(NestType(t.element), NestConst(t.length));
    assert t.length.Placeholder? ==> CostConst(t.length) == NestConst(t.length) == 0;
  }

  lemma {:induction false} SliceRoundTrip(body: Body, pos: nat, t: TypeTree, steps: nat, depth: nat)
    requires t.Slice? && 0 < steps <= STEP_LIMIT && 0 < depth && HoldsType(body, pos, t)
    ensures Peek(body, pos) == 'S'
    ensures TypeYields(CompoundType(body, pos, steps, depth), t, pos, steps - 1, depth - 1)
    decreases t, 0
  {
    PrefixParts(body, pos, "S", t.element);
    hide BasicCode, BasicName, BasicType, Type, HoldsType, At, Closed;
    TypeRoundTrip(body, pos + 1, t.element, steps, depth);
  }

  lemma {:induction false} RefRoundTrip(body: Body, pos: nat, t: TypeTree, steps: nat, depth: nat)
    requires t.Ref? && 0 < steps <= STEP_LIMIT && 0 < depth && HoldsType(body, pos, t)
    ensures Peek(body, pos) == if t.mutable then 'Q' else 'R'
    ensures TypeYields(CompoundType(body, pos, steps, depth), t, pos, steps - 1, depth - 1)
    decreases t, 0
  {
    hide BasicCode, BasicName, BasicType, Type, HoldsType, Base62, MangleLifetime;
    RefParts(body, pos, t);
    TypeRoundTrip(body, pos + 1 + |MangleLifetime(t.lifetime)|, t.pointee, steps, depth);
  }

  lemma RefParts(body: Body, pos: nat, t: TypeTree)
    requires t.Ref? && HoldsType(body, pos, t)
    ensures var lifetime := MangleLifetime(t.lifetime);
      && Peek(body, pos) == (if t.mutable then 'Q' else 'R')
      && HoldsType(body, pos + 1 + |lifetime|, t.pointee)
      && |MangleType(t)| == 1 + |lifetime| + |MangleType(t.pointee)|
      && (Peek(body, pos + 1) == 'L') == t.lifetime.Some?
      && (t.lifetime.None? ==> lifetime == "")
      && (t.lifetime.Some? ==>
            Base62(body, pos + 2) == Some(Number(t.lifetime.value % TWO64, pos + 1 + |lifetime|)))
  {
    hide BasicCode, BasicName, BasicType, Base62, MangleType, MangleLifetime, GoodType, OpenType, At, Closed;
    var letter, lifetime := RefShape(body, t);
    TypeHead(body, t.pointee);
    PrefixParts(body, pos, letter + lifetime, t.pointee);
    AtConcat(body, pos, letter, lifetime);
    AtHead(body, pos + 1 + |lifetime|, MangleType(t.pointee));
    LifetimeRoundTrip(body, pos + 1, t.lifetime);
  }

  lemma RefShape(body: string, t: TypeTree) returns (letter: string, lifetime: string)
    requires t.Ref? && GoodType(body, t)
    ensures letter == (if t.mutable then "Q" else "R") && lifetime == MangleLifetime(t.lifetime)
    ensures MangleType(t) == (letter + lifetime) + MangleType(t.pointee)
    ensures GoodType(body, t.pointee) && OpenType(t) == OpenType(t.pointee)
  {
    letter, lifetime := if t.mutable then "Q" else "R", MangleLifetime(t.lifetime);
  }

  lemma LifetimeRoundTrip(body: Body, pos: nat, lifetime: Option<nat>)
    requires At(body, pos, MangleLifetime(lifetime))
    ensures (MangleLifetime(lifetime) != "") == lifetime.Some?
    ensures lifetime.Some? ==>
      && Peek(body, pos) == 'L'
      && Base62(body, pos + 1) == Some(Number(lifetime.value % TWO64, pos + |MangleLifetime(lifetime)|))
  {
    hide BasicCode, BasicName, BasicType, Base62, Base62Text;
    if lifetime.Some? {
      AtConcat(body, pos, "L", Base62Text(lifetime.value));
      AtHead(body, pos, "L");
      Base62RoundTrip(body, pos + 1, lifetime.value);
    }
  }

  lemma {:induction false} PtrRoundTrip(body: Body, pos: nat, t: TypeTree, steps: nat, depth: nat)
    requires t.Ptr? && 0 < steps <= STEP_LIMIT && 0 < depth && HoldsType(body, pos, t)
    ensures Peek(body, pos) == if t.mutable then 'O' else 'P'
    ensures TypeYields(CompoundType(body, pos, steps, depth), t, pos, steps - 1, depth - 1)
    decreases t, 0
  {
    PrefixParts(body, pos, if t.mutable then "O" else "P", t.pointee);
    hide BasicCode, BasicName, BasicType, Type, HoldsType, At, Closed;
    TypeRoundTrip(body, pos + 1, t.pointee, steps, depth);
  }

  lemma {:induction false} TupleRoundTrip(body: Body, pos: nat, t: TypeTree, steps: nat, depth: nat)
    requires t.Tuple? && 0 < steps <= STEP_LIMIT && 0 < depth <= DEPTH_LIMIT + 1 && HoldsType(body, pos, t)
    ensures Peek(body, pos) == 'T'
    ensures TypeYields(CompoundType(body, pos, steps, depth), t, pos, steps - 1, depth - 1)
    decreases t, 0
  {
    hide BasicCode, BasicName, BasicType, TupleElements, HoldsType, HoldsTypes;
    TupleParts(body, pos, t);
    TypesRoundTrip(body, pos + 1, t.elements, steps, depth, true);
  }

  lemma {:induction false} NamedRoundTrip(body: Body, pos: nat, t: TypeTree, steps: nat, depth: nat)
    requires t.Named? && 0 < steps <= STEP_LIMIT && 0 < depth && HoldsType(body, pos, t)
    ensures IsPathTag(Peek(body, pos))
    ensures TypeYields(CompoundType(body, pos, steps, depth), t, pos, steps - 1, depth - 1)
    decreases t, 0
  {
    hide BasicCode, BasicName, BasicType, Path, At, Closed, ManglePath, OpenPath, GoodPath, ShowPath, CostPath, NestPath;
    PathHead(t.path);
    AtHead(body, pos, ManglePath(t.path));
    PathRoundTrip(body, pos, t.path, steps, depth);
  }

  lemma {:induction false} TypeRefRoundTrip(body: Body, pos: nat, t: TypeTree, steps: nat, depth: nat)
    requires t.TypeRef? && 0 < steps <= STEP_LIMIT && 0 < depth && HoldsType(body, pos, t)
    ensures Peek(body, pos) == 'B'
    ensures TypeYields(CompoundType(body, pos, steps, depth), t, pos, steps - 1, depth - 1)
    decreases t, 0
  {
    TypeHead(body, t.target);
    AtHead(body, t.at, MangleType(t.target));
    ReferenceParts(body, pos, t.at);
    hide BasicCode, BasicName, BasicType, Type, Base62, Base62Text, At, Closed;
    TypeRoundTrip(body, t.at, t.target, steps, depth);
  }

  lemma {:induction false} ConstRoundTrip(body: Body, pos: nat, c: ConstTree, steps: nat, depth: nat)
    requires steps <= STEP_LIMIT && HoldsConst(body, pos, c)
    ensures ConstYields(Const(body, pos, steps, depth), c, pos, steps, depth)
    decreases c
  {
    if c.Placeholder? {
      AtHead(body, pos, "p");
    } else {
      ValueParts(body, pos, c);
      hide Type, HoldsType, MangleType, MangleConst, MangleValue, ShowType, CostType, NestType, Digits, DigitsEnd, At,
        GoodConst, HoldsConst;
      ValueFits(body, pos, c);
      TypeRoundTrip(body, pos, c.ty, steps, depth);
      var ty := Type(body, pos, steps, depth);
      if ty.Done? {
        SignRoundTrip(body, ty.next, c);
        DigitsRoundTrip(body, if c.negative then ty.next + 1 else ty.next, c.digits);
      }
    }
  }

  lemma ValueFits(body: string, pos: nat, c: ConstTree)
    requires c.Value? && HoldsConst(body, pos, c)
    ensures forall i | 0 <= i < |c.digits| :: IsHexDigit(c.digits[i])
    ensures CostConst(c) == CostType(c.ty) && NestConst(c) == NestType(c.ty)
  {
    hide GoodType, OpenType, CostType, NestType;
  }

  // The sign letter is passed over where there is one.
  lemma SignRoundTrip(body: Body, p: nat, c: ConstTree)
    requires c.Value? && At(body, p, MangleValue(c)) && forall i | 0 <= i < |c.digits| :: IsHexDigit(c.digits[i])
    ensures Peek(body, p) == 'n' <==> c.negative
    ensures At(body, if c.negative then p + 1 else p, c.digits + "_")
  {
    var sign := if c.negative then "n" else "";
    AtConcat(body, p, sign, c.digits + "_");
    if c.negative {
      AtHead(body, p, "n");
    } else {
      AtHead(body, p, c.digits + "_");
    }
  }

  // Hexadecimal digits are read whole; none of them is taken for the sign letter.
  lemma DigitsRoundTrip(body: Body, p: nat, digits: string)
    requires At(body, p, digits + "_") && forall i | 0 <= i < |digits| :: IsHexDigit(digits[i])
    ensures Peek(body, p) != 'n' && Digits(body, p) == digits
    ensures DigitsEnd(body, p) == p + |digits| && Peek(body, p + |digits|) == '_'
  {
    AtHead(body, p, digits + "_");
    assert forall i | 0 <= i < |digits| :: IsHexDigit(digits[i]) && digits[i] != '_';
    DigitsScan(body, p, digits);
    AtLast(body, p, digits, '_');
  }

  lemma {:induction false} ArgRoundTrip(body: Body, pos: nat, a: Arg, steps: nat, depth: nat)
    requires steps <= STEP_LIMIT && depth <= DEPTH_LIMIT && HoldsArg(body, pos, a)
    ensures Yields(GenericArg(body, pos, steps, depth), Fits(CostArg(a), NestArg(a), steps, depth),
                   ShowArg(a), pos + |MangleArg(a)|, steps + CostArg(a))
    decreases a
  {
    hide BasicCode, BasicName, BasicType, Type, Const, Base62, Base62Text, MangleType, MangleConst;
    match a
    case LifetimeArg(n) =>
      AtConcat(body, pos, "L", Base62Text(n));
      AtHead(body, pos, "L");
      Base62RoundTrip(body, pos + 1, n);
    case TypeArg(ty) =>
      TypeHead(body, ty);
      AtHead(body, pos, MangleType(ty));
      TypeRoundTrip(body, pos, ty, steps, depth);
    case ConstArg(c) =>
      AtConcat(body, pos, "K", MangleConst(c));
      AtHead(body, pos, "K");
      ConstRoundTrip(body, pos + 1, c, steps, depth);
  }

  // The text a list loop adds: a separator when elements have gone before.
  function Separated(empty: bool, first: bool, text: string): string {
    if empty || first then text else ", " + text
  }

  lemma ShowArgsStep(args: Args, first: bool)
    requires args.MoreArgs?
    ensures ((if first then "" else ", ") + ShowArg(args.head)) + Separated(args.tail.NoArgs?, false, ShowArgs(args.tail) + ">")
         == Separated(false, first, ShowArgs(args) + ">")
  {
    var sep, head, tail := if first then "" else ", ", ShowArg(args.head), ShowArgs(args.tail);
    assert forall t: string :: "" + t == t;
    hide BasicCode, BasicName, BasicType, ShowArg;
    if args.tail.NoArgs? {
      Associates(sep, head, ">");
    } else {
      Associates(head, ", " + tail, ">");
      Associates(", ", tail, ">");
      Associates(sep, head, ", " + (tail + ">"));
    }
  }

  predicate ArgsYield(r: Parse, args: Args, pos: nat, steps: nat, depth: nat, first: bool) {
    Yields(r, args.NoArgs? || Fits(CostArgs(args), NestArgs(args), steps, depth),
           Separated(args.NoArgs?, first, ShowArgs(args) + ">"),
           pos + |MangleArgs(args)| + 1, steps + CostArgs(args))
  }

  // One turn of the loop, given what its parts yield.
  lemma ArgsCombine(args: Args, pos: nat, steps: nat, depth: nat, first: bool, arg: Parse, rest: Parse)
    requires args.MoreArgs? && !Exhausted(steps + 1, depth)
    requires Yields(arg, Fits(CostArg(args.head), NestArg(args.head), steps + 1, depth),
                    ShowArg(args.head), pos + |MangleArg(args.head)|, steps + 1 + CostArg(args.head))
    requires arg.Done? ==> ArgsYield(rest, args.tail, arg.next, arg.steps, depth, false)
    ensures ArgsYield(if arg.Fail? then arg else Prepend((if first then "" else ", ") + arg.text, rest),
                      args, pos, steps, depth, first)
  {
    hide BasicCode, BasicName, BasicType, Separated, ShowArgs, CostArg, NestArg, ShowArg, MangleArg;
    ShowArgsStep(args, first);
    assert CostArgs(args) == 1 + CostArg(args.head) + CostArgs(args.tail);
    assert NestArgs(args) == Max(NestArg(args.head), NestArgs(args.tail));
  }

  // The loop stops at the closing letter, or for want of budget.
  lemma ArgsStop(body: Body, pos: nat, args: Args, steps: nat, depth: nat, first: bool)
    requires steps <= STEP_LIMIT && HoldsArgs(body, pos, args)
    requires args.NoArgs? || Exhausted(steps + 1, depth)
    ensures ArgsYield(GenericArgs(body, pos, steps, depth, first), args, pos, steps, depth, first)
  {
    hide BasicCode, BasicName, BasicType, GenericArg, HoldsArg;
    ArgsParts(body, pos, args);
  }

  lemma ArgsTurn(body: Body, pos: nat, steps: nat, depth: nat, first: bool)
    requires steps <= STEP_LIMIT && pos < |body| && Peek(body, pos) != 'E' && !Exhausted(steps + 1, depth)
    ensures var arg := GenericArg(body, pos, steps + 1, depth);
      GenericArgs(body, pos, steps, depth, first) == if arg.Fail? then arg
        else Prepend((if first then "" else ", ") + arg.text, GenericArgs(body, arg.next, arg.steps, depth, false))
  {
    hide BasicCode, BasicName, BasicType, GenericArg;
  }

  lemma {:induction false} ArgsRoundTrip(body: Body, pos: nat, args: Args, steps: nat, depth: nat, first: bool)
    requires steps <= STEP_LIMIT && HoldsArgs(body, pos, args)
    ensures ArgsYield(GenericArgs(body, pos, steps, depth, first), args, pos, steps, depth, first)
    decreases args
  {
    hide BasicCode, BasicName, BasicType, GenericArgs, GenericArg, HoldsArg, HoldsArgs, ArgsYield, ShowArg, MangleArg, CostArg, NestArg;
    if args.NoArgs? || Exhausted(steps + 1, depth) {
      ArgsStop(body, pos, args, steps, depth, first);
    } else {
      ArgsParts(body, pos, args);
      ArgsTurn(body, pos, steps, depth, first);
      ArgRoundTrip(body, pos, args.head, steps + 1, depth);
      var arg := GenericArg(body, pos, steps + 1, depth);
      if arg.Done? {
        ArgsRoundTrip(body, arg.next, args.tail, arg.steps, depth, false);
        ArgsCombine(args, pos, steps, depth, first, arg, GenericArgs(body, arg.next, arg.steps, depth, false));
      } else {
        ArgsCombine(args, pos, steps, depth, first, arg, arg);
      }
    }
  }

  lemma ShowTypesStep(types: Types, first: bool)
    requires types.MoreTypes?
    ensures ((if first then "" else ", ") + ShowType(types.head)) + Separated(types.tail.NoTypes?, false, ShowTypes(types.tail) + ")")
         == Separated(false, first, ShowTypes(types) + ")")
  {
    var sep, head, tail := if first then "" else ", ", ShowType(types.head), ShowTypes(types.tail);
    assert forall t: string :: "" + t == t;
    hide BasicCode, BasicName, BasicType, ShowType;
    if types.tail.NoTypes? {
      Associates(sep, head, ")");
    } else {
      Associates(head, ", " + tail, ")");
      Associates(", ", tail, ")");
      Associates(sep, head, ", " + (tail + ")"));
    }
  }

  predicate TypesYield(r: Parse, types: Types, pos: nat, steps: nat, depth: nat, first: bool) {
    Yields(r, types.NoTypes? || Fits(CostTypes(types), NestTypes(types), steps, depth),
           Separated(types.NoTypes?, first, ShowTypes(types) + ")"),
           pos + |MangleTypes(types)| + 1, steps + CostTypes(types))
  }

  // One turn of the loop, given what its parts yield.
  lemma TypesCombine(types: Types, pos: nat, steps: nat, depth: nat, first: bool, element: Parse, rest: Parse)
    requires types.MoreTypes? && !Exhausted(steps + 1, depth)
    requires Yields(element, Fits(CostType(types.head), NestType(types.head), steps + 1, depth),
                    ShowType(types.head), pos + |MangleType(types.head)|, steps + 1 + CostType(types.head))
    requires element.Done? ==> TypesYield(rest, types.tail, element.next, element.steps, depth, false)
    ensures TypesYield(if element.Fail? then element else Prepend((if first then "" else ", ") + element.text, rest),
                      types, pos, steps, depth, first)
  {
    hide BasicCode, BasicName, BasicType, Separated, ShowTypes, CostType, NestType, ShowType, MangleType;
    ShowTypesStep(types, first);
    assert CostTypes(types) == 1 + CostType(types.head) + CostTypes(types.tail);
    assert NestTypes(types) == Max(NestType(types.head), NestTypes(types.tail));
  }

  // The loop stops at the closing letter, or for want of budget.
  lemma TypesStop(body: Body, pos: nat, types: Types, steps: nat, depth: nat, first: bool)
    requires steps <= STEP_LIMIT && HoldsTypes(body, pos, types)
    requires types.NoTypes? || Exhausted(steps + 1, depth)
    ensures TypesYield(TupleElements(body, pos, steps, depth, first), types, pos, steps, depth, first)
  {
    hide BasicCode, BasicName, BasicType, Type, HoldsType;
    TypesParts(body, pos, types);
  }

  lemma TypesTurn(body: Body, pos: nat, steps: nat, depth: nat, first: bool)
    requires steps <= STEP_LIMIT && pos < |body| && Peek(body, pos) != 'E' && !Exhausted(steps + 1, depth)
    ensures var element := Type(body, pos, steps + 1, depth);
      TupleElements(body, pos, steps, depth, first) == if element.Fail? then element
        else Prepend((if first then "" else ", ") + element.text, TupleElements(body, element.next, element.steps, depth, false))
  {
    hide BasicCode, BasicName, BasicType, Type;
  }

  lemma {:induction false} TypesRoundTrip(body: Body, pos: nat, types: Types, steps: nat, depth: nat, first: bool)
    requires steps <= STEP_LIMIT && HoldsTypes(body, pos, types)
    ensures TypesYield(TupleElements(body, pos, steps, depth, first), types, pos, steps, depth, first)
    decreases types
  {
    hide BasicCode, BasicName, BasicType, TupleElements, Type, HoldsType, HoldsTypes, TypesYield, ShowType, MangleType, CostType, NestType;
    if types.NoTypes? || Exhausted(steps + 1, depth) {
      TypesStop(body, pos, types, steps, depth, first);
    } else {
      TypesParts(body, pos, types);
      TypesTurn(body, pos, steps, depth, first);
      TypeRoundTrip(body, pos, types.head, steps + 1, depth);
      var element := Type(body, pos, steps + 1, depth);
      if element.Done? {
        TypesRoundTrip(body, element.next, types.tail, element.steps, depth, false);
        TypesCombine(types, pos, steps, depth, first, element, TupleElements(body, element.next, element.steps, depth, false));
      } else {
        TypesCombine(types, pos, steps, depth, first, element, element);
      }
    }
  }
}
