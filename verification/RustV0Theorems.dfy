// What the round trip means for whole names, and where the demangler parts from the
// grammar.

module RustV0Theorems {
  import opened Common
  import opened Slices
  import opened RustV0Parse
  import opened RustV0Mangle
  import opened RustV0RoundTrip

  // ---------- whole names ----------

  // An encoding version: nothing, or a decimal number without leading zeros.
  predicate IsVersion(v: string) {
    v != "" ==> v[0] != '0' && forall i | 0 <= i < |v| :: IsDecimal(v[i])
  }

  // A whole mangled name is displayed as its tree exactly when the tree fits the budget,
  // and is shown as it is otherwise, whatever follows the path.
  lemma DemangleMangled(version: string, p: PathTree, rest: string, foreign: string)
    requires |"_R" + version + ManglePath(p) + rest| < MAX_BODY
    requires IsVersion(version)
    requires HoldsPath(version + ManglePath(p) + rest, |version|, p)
    ensures var name := "_R" + version + ManglePath(p) + rest;
      Demangle(name, foreign) == if Fits(CostPath(p), NestPath(p), 0, 0) then ShowPath(p) else name
  {
    var body := version + ManglePath(p) + rest;
    var name := "_R" + version + ManglePath(p) + rest;
    PathHead(p);
    hide Run, Path, ManglePath, HoldsPath, ShowPath, Fits, IsVersion;
    assert name[2..] == body && |name| > 2 && name[0] == '_' && name[1] == 'R';
    RunMangled(version, p, rest);
  }

  lemma RunMangled(version: string, p: PathTree, rest: string)
    requires |version + ManglePath(p) + rest| < MAX_BODY
    requires IsVersion(version)
    requires HoldsPath(version + ManglePath(p) + rest, |version|, p)
    ensures Run(version + ManglePath(p) + rest)
         == if Fits(CostPath(p), NestPath(p), 0, 0) then Some(ShowPath(p)) else None
  {
    var body := version + ManglePath(p) + rest;
    PathHead(p);
    hide Path, ManglePath, HoldsPath, ShowPath, Fits, CostPath, NestPath;
    assert body[|version|] == ManglePath(p)[0];
    assert body[..|version|] == version;
    VersionSkipped(body, version, 0);
    assert version != "" ==> body[0] == version[0];
    PathRoundTrip(body, |version|, p, 0, 0);
  }

  lemma {:induction false} VersionSkipped(body: string, version: string, i: nat)
    requires IsVersion(version) && |version| < |body| && body[..|version|] == version
    requires !IsDecimal(body[|version|]) && i <= |version|
    ensures SkipDecimals(body, i) == |version|
    decreases |version| - i
  {
    if i < |version| {
      assert body[i] == version[i];
      VersionSkipped(body, version, i + 1);
    }
  }

  // ---------- trees without backreferences stand anywhere ----------

  predicate PlainPath(p: PathTree) {
    match p
    case Crate(_) => true
    case Nested(_, parent, _) => PlainPath(parent)
    case Generic(base, args) => PlainPath(base) && PlainArgs(args)
    case InherentImpl(impl, self) => PlainPath(impl) && PlainType(self)
    case TraitImpl(impl, self, of) => PlainPath(impl) && PlainType(self) && PlainPath(of)
    case TraitDefinition(self, of) => PlainType(self) && PlainPath(of)
    case PathRef(_, _) => false
    case Numbered(_, impl) => PlainPath(impl)
  }

  predicate PlainType(t: TypeTree) {
    match t
    case Basic(_) => true
    case Array(element, length) => PlainType(element) && PlainConst(length)
    case Slice(element) => PlainType(element)
    case Ref(_, _, pointee) => PlainType(pointee)
    case Ptr(_, pointee) => PlainType(pointee)
    case Tuple(elements) => PlainTypes(elements)
    case Named(path) => PlainPath(path)
    case TypeRef(_, _) => false
  }

  predicate PlainConst(c: ConstTree) {
    c.Value? ==> PlainType(c.ty)
  }

  predicate PlainArgs(args: Args) {
    args.MoreArgs? ==> PlainArg(args.head) && PlainArgs(args.tail)
  }

  predicate PlainArg(a: Arg) {
    match a
    case LifetimeArg(_) => true
    case TypeArg(ty) => PlainType(ty)
    case ConstArg(c) => PlainConst(c)
  }

  predicate PlainTypes(types: Types) {
    types.MoreTypes? ==> PlainType(types.head) && PlainTypes(types.tail)
  }

  lemma {:induction false} PlainPathMoves(a: string, b: string, p: PathTree)
    requires PlainPath(p) && GoodPath(a, p)
    ensures GoodPath(b, p)
    decreases p
  {
    match p
    case Crate(_) =>
    case Nested(_, parent, _) => PlainPathMoves(a, b, parent);
    case Generic(base, args) => PlainPathMoves(a, b, base); PlainArgsMove(a, b, args);
    case InherentImpl(impl, self) => PlainPathMoves(a, b, impl); PlainTypeMoves(a, b, self);
    case TraitImpl(impl, self, of) =>
      PlainPathMoves(a, b, impl);
      PlainTypeMoves(a, b, self);
      PlainPathMoves(a, b, of);
    case TraitDefinition(self, of) => PlainTypeMoves(a, b, self); PlainPathMoves(a, b, of);
    case Numbered(_, impl) => PlainPathMoves(a, b, impl);
  }

  lemma {:induction false} PlainTypeMoves(a: string, b: string, t: TypeTree)
    requires PlainType(t) && GoodType(a, t)
    ensures GoodType(b, t)
    decreases t
  {
    match t
    case Basic(_) =>
    case Array(element, length) =>
      PlainTypeMoves(a, b, element);
      if length.Value? { PlainTypeMoves(a, b, length.ty); }
    case Slice(element) => PlainTypeMoves(a, b, element);
    case Ref(_, _, pointee) => PlainTypeMoves(a, b, pointee);
    case Ptr(_, pointee) => PlainTypeMoves(a, b, pointee);
    case Tuple(elements) => PlainTypesMove(a, b, elements);
    case Named(path) => PlainPathMoves(a, b, path);
  }

  lemma {:induction false} PlainArgsMove(a: string, b: string, args: Args)
    requires PlainArgs(args) && GoodArgs(a, args)
    ensures GoodArgs(b, args)
    decreases args
  {
    if args.MoreArgs? {
      PlainArgMoves(a, b, args.head);
      PlainArgsMove(a, b, args.tail);
    }
  }

  lemma {:induction false} PlainArgMoves(a: string, b: string, arg: Arg)
    requires PlainArg(arg) && GoodArg(a, arg)
    ensures GoodArg(b, arg)
    decreases arg
  {
    match arg
    case LifetimeArg(_) =>
    case TypeArg(ty) => PlainTypeMoves(a, b, ty);
    case ConstArg(c) => if c.Value? { PlainTypeMoves(a, b, c.ty); }
  }

  lemma {:induction false} PlainTypesMove(a: string, b: string, types: Types)
    requires PlainTypes(types) && GoodTypes(a, types)
    ensures GoodTypes(b, types)
    decreases types
  {
    if types.MoreTypes? {
      PlainTypeMoves(a, b, types.head);
      PlainTypesMove(a, b, types.tail);
    }
  }

  // The mangled form of a tree without backreferences is demangled at any position and
  // before any text that does not run into a trailing empty identifier.
  lemma PlainRoundTrip(before: string, p: PathTree, after: string, steps: nat, depth: nat)
    requires |before + ManglePath(p) + after| < MAX_BODY
    requires PlainPath(p) && GoodPath("", p) && steps <= STEP_LIMIT
    requires OpenPath(p) && after != "" ==> !IsDecimal(after[0]) && after[0] != '_'
    ensures PathYields(Path(before + ManglePath(p) + after, |before|, steps, depth), p, |before|, steps, depth)
  {
    var body := before + ManglePath(p) + after;
    PlainPathMoves("", body, p);
    hide Path, PathYields, ManglePath, GoodPath, OpenPath, PlainPath;
    assert At(body, |before|, ManglePath(p));
    var end := |before| + |ManglePath(p)|;
    assert after != "" ==> body[end] == after[0];
    PathRoundTrip(body, |before|, p, steps, depth);
  }

  // ---------- backreferences ----------

  // The tree with every backreference replaced by what it stands for.
  function ExpandPath(p: PathTree): PathTree {
    match p
    case Crate(_) => p
    case Nested(ns, parent, id) => Nested(ns, ExpandPath(parent), id)
    case Generic(base, args) => Generic(ExpandPath(base), ExpandArgs(args))
    case InherentImpl(impl, self) => InherentImpl(ExpandPath(impl), ExpandType(self))
    case TraitImpl(impl, self, of) => TraitImpl(ExpandPath(impl), ExpandType(self), ExpandPath(of))
    case TraitDefinition(self, of) => TraitDefinition(ExpandType(self), ExpandPath(of))
    case PathRef(_, target) => ExpandPath(target)
    case Numbered(disambiguator, impl) => Numbered(disambiguator, ExpandPath(impl))
  }

  function ExpandType(t: TypeTree): TypeTree {
    match t
    case Basic(_) => t
    case Array(element, length) => Array(ExpandType(element), ExpandConst(length))
    case Slice(element) => Slice(ExpandType(element))
    case Ref(mutable, lifetime, pointee) => Ref(mutable, lifetime, ExpandType(pointee))
    case Ptr(mutable, pointee) => Ptr(mutable, ExpandType(pointee))
    case Tuple(elements) => Tuple(ExpandTypes(elements))
    case Named(path) => Named(ExpandPath(path))
    case TypeRef(_, target) => ExpandType(target)
  }

  function ExpandConst(c: ConstTree): ConstTree {
    if c.Placeholder? then c else Value(ExpandType(c.ty), c.negative, c.digits)
  }

  function ExpandArg(a: Arg): Arg {
    match a
    case LifetimeArg(_) => a
    case TypeArg(ty) => TypeArg(ExpandType(ty))
    case ConstArg(c) => ConstArg(ExpandConst(c))
  }

  function ExpandArgs(args: Args): (r: Args)
    ensures r.NoArgs? == args.NoArgs?
  {
    if args.NoArgs? then args else MoreArgs(ExpandArg(args.head), ExpandArgs(args.tail))
  }

  function ExpandTypes(types: Types): (r: Types)
    ensures r.NoTypes? == types.NoTypes?
  {
    if types.NoTypes? then types else MoreTypes(ExpandType(types.head), ExpandTypes(types.tail))
  }

  lemma {:induction false} ExpandShowsSamePath(p: PathTree)
    ensures ShowPath(ExpandPath(p)) == ShowPath(p)
    decreases p
  {
    match p
    case Crate(_) =>
    case Nested(_, parent, _) => ExpandShowsSamePath(parent);
    case Generic(base, args) => ExpandShowsSamePath(base); ExpandShowsSameArgs(args);
    case InherentImpl(_, self) => ExpandShowsSameType(self);
    case TraitImpl(_, self, of) => ExpandShowsSameType(self); ExpandShowsSamePath(of);
    case TraitDefinition(self, of) => ExpandShowsSameType(self); ExpandShowsSamePath(of);
    case PathRef(_, target) => ExpandShowsSamePath(target);
    case Numbered(_, impl) => ExpandShowsSamePath(impl);
  }

  lemma {:induction false} ExpandShowsSameType(t: TypeTree)
    ensures ShowType(ExpandType(t)) == ShowType(t)
    decreases t
  {
    match t
    case Basic(_) =>
    case Array(element, length) =>
      ExpandShowsSameType(element);
      if length.Value? { ExpandShowsSameType(length.ty); }
    case Slice(element) => ExpandShowsSameType(element);
    case Ref(_, _, pointee) => ExpandShowsSameType(pointee);
    case Ptr(_, pointee) => ExpandShowsSameType(pointee);
    case Tuple(elements) => ExpandShowsSameTypes(elements);
    case Named(path) => ExpandShowsSamePath(path);
    case TypeRef(_, target) => ExpandShowsSameType(target);
  }

  lemma {:induction false} ExpandShowsSameArgs(args: Args)
    ensures ShowArgs(ExpandArgs(args)) == ShowArgs(args)
    decreases args
  {
    if args.MoreArgs? {
      match args.head {
        case LifetimeArg(_) =>
        case TypeArg(ty) => ExpandShowsSameType(ty);
        case ConstArg(c) => if c.Value? { ExpandShowsSameType(c.ty); }
      }
      assert ShowArg(ExpandArg(args.head)) == ShowArg(args.head);
      hide ShowArg, ExpandArg;
      ExpandShowsSameArgs(args.tail);
    }
  }

  lemma {:induction false} ExpandShowsSameTypes(types: Types)
    ensures ShowTypes(ExpandTypes(types)) == ShowTypes(types)
    decreases types
  {
    if types.MoreTypes? {
      ExpandShowsSameType(types.head);
      ExpandShowsSameTypes(types.tail);
    }
  }

  // Two encodings of one tree, using backreferences in whatever places, show the same
  // text as long as both fit the budget they are given.
  lemma BackreferencesAreTransparent(a: Body, i: nat, p: PathTree, b: Body, j: nat, q: PathTree, s: nat, d: nat,
    s': nat, d': nat)
    requires HoldsPath(a, i, p) && HoldsPath(b, j, q) && ExpandPath(p) == ExpandPath(q)
    requires s <= STEP_LIMIT && Fits(CostPath(p), NestPath(p), s, d)
    requires s' <= STEP_LIMIT && Fits(CostPath(q), NestPath(q), s', d')
    ensures Path(a, i, s, d).Done? && Path(b, j, s', d').Done?
    ensures Path(a, i, s, d).text == Path(b, j, s', d').text
  {
    hide Path, HoldsPath, ShowPath, ExpandPath, CostPath, NestPath;
    PathRoundTrip(a, i, p, s, d);
    PathRoundTrip(b, j, q, s', d');
    ExpandShowsSamePath(p);
    ExpandShowsSamePath(q);
  }

  // ---------- what is refused ----------

  // On every body: no path and no type is read past the budget, from a letter that starts
  // none, or from a reference that has no number or points outside the body.
  lemma RefusedAtTheStart(body: Body, p: nat, steps: nat, depth: nat)
    requires steps <= STEP_LIMIT
    ensures steps >= 20000 || depth > 256 ==> Path(body, p, steps, depth).Fail? && Type(body, p, steps, depth).Fail?
    ensures Peek(body, p) !in {'C', 'N', 'I', 'B', 'M', 'X', 'Y'} ==> Path(body, p, steps, depth).Fail?
    ensures (Peek(body, p) !in {'A', 'S', 'R', 'Q', 'P', 'O', 'T', 'B', 'C', 'N', 'I', 'M', 'X', 'Y'}
             && forall kind :: Peek(body, p) != BasicCode(kind)) ==>
      Type(body, p, steps, depth).Fail?
    ensures (Peek(body, p) == 'B' && (Base62(body, p + 1).None? || Base62(body, p + 1).value.value >= |body|)) ==>
      Path(body, p, steps, depth).Fail? && Type(body, p, steps, depth).Fail?
  {
    hide Base62, NestedPath, GenericArgs, TypeAsTrait, Identifier, ArrayType, Reference, TupleElements, BasicType;
    OnlyBasicLetters(Peek(body, p));
    if !Exhausted(steps + 1, depth) {
      assert Path(body, p, steps, depth) == PathInner(body, p, steps + 1, depth + 1);
      assert Type(body, p, steps, depth) == TypeInner(body, p, steps + 1, depth + 1);
    }
  }

  // No list is read that the body ends in.
  lemma OpenListRefused(body: Body, p: nat, steps: nat, depth: nat, first: bool)
    requires steps <= STEP_LIMIT && p >= |body|
    ensures GenericArgs(body, p, steps, depth, first) == TupleElements(body, p, steps, depth, first) == Fail(steps)
  {
  }

  // No identifier is read without a length, or with one that leaves the body.
  lemma IdentifierRefused(body: Body, p: nat, steps: nat, depth: nat)
    requires steps <= STEP_LIMIT && Peek(body, p) != 's'
    ensures var q := if Peek(body, p) == 'u' then p + 1 else p;
      && (!IsDecimal(Peek(body, q)) ==> Identifier(body, p, steps, depth).Fail?)
      && (Decimal(body, q).Some? && |body| - q < Decimal(body, q).value.value < MAX_BODY ==>
            Identifier(body, p, steps, depth).Fail?)
  {
  }

  // A length that takes the 64-bit position round is accepted when it ends up inside the
  // body: the name is all that is left, and the position moves back.
  lemma WrappedLengthTaken(body: Body, p: nat, steps: nat, depth: nat)
    requires steps <= STEP_LIMIT && Fits(1, 0, steps, depth) && Peek(body, p) != 's' && Peek(body, p) != 'u'
    requires Decimal(body, p).Some?
    ensures var n := Decimal(body, p).value;
      var start := if Peek(body, n.next) == '_' then n.next + 1 else n.next;
      start + n.value >= 0x1_0000_0000_0000_0000 ==>
        Identifier(body, p, steps, depth)
        == if start + n.value - 0x1_0000_0000_0000_0000 <= |body|
           then Done(body[start..], start + n.value - 0x1_0000_0000_0000_0000, steps + 1) else Fail(steps + 1)
  {
    hide Decimal;
  }

  // A value's text is whatever stands between its type, or the sign behind it, and the next
  // underscore; at the end of the body none is needed.
  lemma ConstShowsWhatFollows(body: Body, p: nat, steps: nat, depth: nat, negative: bool, digits: string)
    requires steps <= STEP_LIMIT && Peek(body, p) != 'p' && Type(body, p, steps, depth).Done?
    requires '_' !in digits && (!negative && digits != "" ==> digits[0] != 'n')
    requires var q, text := Type(body, p, steps, depth).next, (if negative then "n" else "") + digits;
      At(body, q, text + "_") || (At(body, q, text) && q + |text| == |body|)
    ensures var ty, length := Type(body, p, steps, depth), (if negative then 1 else 0) + |digits|;
      Const(body, p, steps, depth)
      == Done(if digits == "" then "_" else digits,
              if ty.next + length < |body| then ty.next + length + 1 else ty.next + length, ty.steps)
  {
    hide Type, DigitsEnd, Digits, At;
    var ty := Type(body, p, steps, depth);
    var start := if negative then ty.next + 1 else ty.next;
    SignAndDigits(body, ty.next, negative, digits);
    RunOfDigits(body, start, digits);
  }

  lemma SignAndDigits(body: string, q: nat, negative: bool, digits: string)
    requires !negative && digits != "" ==> digits[0] != 'n'
    requires var text := (if negative then "n" else "") + digits;
      At(body, q, text + "_") || (At(body, q, text) && q + |text| == |body|)
    ensures Peek(body, q) == 'n' <==> negative
    ensures var start := if negative then q + 1 else q;
      && At(body, start, digits) && start + |digits| <= |body|
      && (start + |digits| == |body| || Peek(body, start + |digits|) == '_')
  {
    hide At;
    var sign := if negative then "n" else "";
    var start := q + |sign|;
    if At(body, q, (sign + digits) + "_") {
      Associates(sign, digits, "_");
      AtConcat(body, q, sign, digits + "_");
      AtLast(body, start, digits, '_');
      AtHead(body, start, digits + "_");
    } else {
      AtConcat(body, q, sign, digits);
      if digits != "" {
        AtHead(body, start, digits);
      }
    }
    if negative {
      AtHead(body, q, "n");
    }
  }

  lemma {:induction false} RunOfDigits(body: string, p: nat, digits: string)
    requires At(body, p, digits) && '_' !in digits
    requires p + |digits| == |body| || Peek(body, p + |digits|) == '_'
    ensures DigitsEnd(body, p) == p + |digits| && Digits(body, p) == digits
    decreases |digits|
  {
    if digits != "" {
      AtHead(body, p, digits);
      assert digits[0] in digits && digits == digits[..1] + digits[1..];
      AtConcat(body, p, digits[..1], digits[1..]);
      RunOfDigits(body, p + 1, digits[1..]);
    }
  }

  // ---------- the empty identifier ----------

  // Any number read at p is below the limit.
  predicate NumberBelow(body: string, p: nat, limit: nat) {
    Decimal(body, p).Some? ==> Decimal(body, p).value.value < limit
  }

  // Where an identifier is read back right, exactly: an empty name written as a bare "0"
  // is lost when a digit or an underscore follows.  (Numbers so large that the cursor
  // wraps around are left aside.)
  lemma IdentifierReadExactly(body: Body, p: nat, id: Ident, steps: nat, depth: nat)
    requires steps <= STEP_LIMIT && Fits(1, 0, steps, depth)
    requires GoodIdent(id) && At(body, p, MangleIdent(id))
    requires NumberBelow(body, p + |MangleIdent(id)| - |LengthText(id)| - |id.name|, MAX_BODY)
    ensures Identifier(body, p, steps, depth) == Done(id.name, p + |MangleIdent(id)|, steps + 1)
       <==> Closed(OpenIdent(id), body, p + |MangleIdent(id)|)
  {
    hide LengthText, Base62Text, MangleIdent, At;
    if Closed(OpenIdent(id), body, p + |MangleIdent(id)|) {
      IdentRoundTrip(body, p, id, steps, depth);
    } else {
      var q := TailStart(body, p, id, steps, depth);
      LengthOfEmpty(id);
      EmptyNameOverrun(body, q, id, steps + 1);
    }
  }

  // Where the reader is once it has dealt with the disambiguator.
  lemma TailStart(body: Body, p: nat, id: Ident, steps: nat, depth: nat) returns (q: nat)
    requires steps <= STEP_LIMIT && Fits(1, 0, steps, depth) && At(body, p, MangleIdent(id))
    ensures At(body, q, MangleName(id)) && q + |MangleName(id)| == p + |MangleIdent(id)|
    ensures Identifier(body, p, steps, depth) == IdentifierTail(body, q, steps + 1)
  {
    hide Base62, Base62Text, IdentifierTail, MangleName;
    if id.disambiguator.Some? {
      DisambiguatorParts(body, p, id);
      Base62RoundTrip(body, p + 1, id.disambiguator.value);
      q := p + 1 + |Base62Text(id.disambiguator.value)|;
    } else {
      NameHead(id);
      assert MangleIdent(id) == MangleName(id);
      AtHead(body, p, MangleName(id));
      q := p;
    }
  }

  lemma LengthOfEmpty(id: Ident)
    requires OpenIdent(id)
    ensures |LengthText(id)| == 1 && |MangleName(id)| <= |MangleIdent(id)| && |MangleName(id)| >= 1
  {
    assert DecimalText(0) == ['0'];
  }

  lemma EmptyNameOverrun(body: Body, p: nat, id: Ident, steps: nat)
    requires OpenIdent(id) && At(body, p, MangleName(id))
    requires IsDecimal(Peek(body, p + |MangleName(id)|)) || Peek(body, p + |MangleName(id)|) == '_'
    requires NumberBelow(body, p + |MangleName(id)| - 1, MAX_BODY)
    ensures var r := IdentifierTail(body, p, steps); r.Done? ==> r.next > p + |MangleName(id)|
  {
    hide Decimal, DecimalRun, MangleName;
    EmptyNameText(id);
    OverrunNumber(body, p, if id.punycode then "u" else "");
  }

  lemma EmptyNameText(id: Ident)
    requires OpenIdent(id)
    ensures MangleName(id) == (if id.punycode then "u" else "") + ['0']
  {
    assert DecimalText(0) == ['0'];
  }

  // The number read where the empty name's "0" stands.
  lemma OverrunNumber(body: Body, p: nat, before: string)
    requires At(body, p, before + ['0'])
    ensures Decimal(body, p + |before|).Some?
    ensures var next, end := Decimal(body, p + |before|).value.next, p + |before| + 1;
      if IsDecimal(Peek(body, end)) then next > end else next == end
    ensures before != "" ==> Peek(body, p) == before[0]
    ensures before == "" ==> Peek(body, p) == '0'
  {
    AtLast(body, p, before, '0');
    DecimalStep(body, p + |before|, 0, 0);
    if before != "" {
      AtHead(body, p, before);
    }
  }

  // ---------- disambiguated implementations ----------

  // No implementation in the tree has a disambiguator, nor has one that it refers back to.
  predicate SinglePath(p: PathTree) {
    match p
    case Crate(_) => true
    case Nested(_, parent, _) => SinglePath(parent)
    case Generic(base, args) => SinglePath(base) && SingleArgs(args)
    case InherentImpl(impl, self) => SinglePath(impl) && SingleType(self)
    case TraitImpl(impl, self, of) => SinglePath(impl) && SingleType(self) && SinglePath(of)
    case TraitDefinition(self, of) => SingleType(self) && SinglePath(of)
    case PathRef(_, target) => SinglePath(target)
    case Numbered(_, _) => false
  }

  predicate SingleType(t: TypeTree) {
    match t
    case Basic(_) => true
    case Array(element, length) => SingleType(element) && SingleConst(length)
    case Slice(element) => SingleType(element)
    case Ref(_, _, pointee) => SingleType(pointee)
    case Ptr(_, pointee) => SingleType(pointee)
    case Tuple(elements) => SingleTypes(elements)
    case Named(path) => SinglePath(path)
    case TypeRef(_, target) => SingleType(target)
  }

  predicate SingleConst(c: ConstTree) {
    c.Value? ==> SingleType(c.ty)
  }

  predicate SingleArg(a: Arg) {
    match a
    case LifetimeArg(_) => true
    case TypeArg(ty) => SingleType(ty)
    case ConstArg(c) => SingleConst(c)
  }

  predicate SingleArgs(args: Args) {
    args.MoreArgs? ==> SingleArg(args.head) && SingleArgs(args.tail)
  }

  predicate SingleTypes(types: Types) {
    types.MoreTypes? ==> SingleType(types.head) && SingleTypes(types.tail)
  }

  // Any other tree is beyond every budget.
  lemma {:induction false} PathBeyondBudget(p: PathTree)
    ensures !SinglePath(p) ==> CostPath(p) > 20000
    decreases p
  {
    match p
    case Crate(_) =>
    case Nested(_, parent, _) => PathBeyondBudget(parent);
    case Generic(base, args) => PathBeyondBudget(base); ArgsBeyondBudget(args);
    case InherentImpl(impl, self) => PathBeyondBudget(impl); TypeBeyondBudget(self);
    case TraitImpl(impl, self, of) => PathBeyondBudget(impl); TypeBeyondBudget(self); PathBeyondBudget(of);
    case TraitDefinition(self, of) => TypeBeyondBudget(self); PathBeyondBudget(of);
    case PathRef(_, target) => PathBeyondBudget(target);
    case Numbered(_, _) =>
  }

  lemma {:induction false} TypeBeyondBudget(t: TypeTree)
    ensures !SingleType(t) ==> CostType(t) > 20000
    decreases t
  {
    match t
    case Basic(_) =>
    case Array(element, length) =>
      TypeBeyondBudget(element);
      ConstBeyondBudget(length);
    case Slice(element) => TypeBeyondBudget(element);
    case Ref(_, _, pointee) => TypeBeyondBudget(pointee);
    case Ptr(_, pointee) => TypeBeyondBudget(pointee);
    case Tuple(elements) => TypesBeyondBudget(elements);
    case Named(path) => PathBeyondBudget(path);
    case TypeRef(_, target) => TypeBeyondBudget(target);
  }

  lemma {:induction false} ConstBeyondBudget(c: ConstTree)
    ensures !SingleConst(c) ==> CostConst(c) > 20000
    decreases c
  {
    if c.Value? {
      TypeBeyondBudget(c.ty);
    }
  }

  lemma {:induction false} ArgBeyondBudget(a: Arg)
    ensures !SingleArg(a) ==> CostArg(a) > 20000
    decreases a
  {
    match a
    case LifetimeArg(_) =>
    case TypeArg(ty) => TypeBeyondBudget(ty);
    case ConstArg(c) => ConstBeyondBudget(c);
  }

  lemma {:induction false} ArgsBeyondBudget(args: Args)
    ensures !SingleArgs(args) ==> CostArgs(args) > 20000
    decreases args
  {
    if args.MoreArgs? {
      ArgBeyondBudget(args.head);
      ArgsBeyondBudget(args.tail);
    }
  }

  lemma {:induction false} TypesBeyondBudget(types: Types)
    ensures !SingleTypes(types) ==> CostTypes(types) > 20000
    decreases types
  {
    if types.MoreTypes? {
      TypeBeyondBudget(types.head);
      TypesBeyondBudget(types.tail);
    }
  }

  // The grammar lets the path of an implementation carry a disambiguator.  A name with such
  // an implementation anywhere is shown as it is, however short.
  lemma ImplDisambiguatorIsLost(version: string, p: PathTree, rest: string, foreign: string)
    requires |"_R" + version + ManglePath(p) + rest| < MAX_BODY
    requires IsVersion(version) && !SinglePath(p)
    requires HoldsPath(version + ManglePath(p) + rest, |version|, p)
    ensures var name := "_R" + version + ManglePath(p) + rest; Demangle(name, foreign) == name
  {
    hide Demangle, ManglePath, HoldsPath, ShowPath, IsVersion, SinglePath, CostPath, NestPath;
    DemangleMangled(version, p, rest, foreign);
    PathBeyondBudget(p);
  }

  const IMPL_BODY: Body := "NvMs_C1aNtC1a1S1f"

  // The method `f` of type `S` in the second implementation block of crate `a`.
  function SecondBlock(): PathTree {
    var a, S, f := Ident(None, false, false, "a"), Ident(None, false, false, "S"), Ident(None, false, false, "f");
    Nested('v', InherentImpl(Numbered(0, Crate(a)), Named(Nested('t', Crate(a), S))), f)
  }

  lemma SecondBlockIsLost()
    ensures ManglePath(SecondBlock()) == IMPL_BODY && ShowPath(SecondBlock()) == "<a::S>::f"
    ensures Run(IMPL_BODY) == None
  {
    SecondBlockForm();
    hide ManglePath, ShowPath;
    PathBeyondBudget(SecondBlock());
    assert IMPL_BODY[0..|IMPL_BODY|] == IMPL_BODY && "" + IMPL_BODY + "" == IMPL_BODY;
    assert HoldsPath(IMPL_BODY, 0, SecondBlock());
    RunMangled("", SecondBlock(), "");
  }

  lemma SecondBlockForm()
    ensures ManglePath(SecondBlock()) == IMPL_BODY && ShowPath(SecondBlock()) == "<a::S>::f"
  {
    var a, S, f := Ident(None, false, false, "a"), Ident(None, false, false, "S"), Ident(None, false, false, "f");
    var item := Nested('t', Crate(a), S);
    var block := InherentImpl(Numbered(0, Crate(a)), Named(item));
    LetterMangled("a");
    LetterMangled("S");
    LetterMangled("f");
    hide MangleIdent;
    assert ManglePath(Crate(a)) == "C1a" && ManglePath(item) == "NtC1a1S" && ShowPath(item) == "a::S";
    assert Base62Text(0) == "_";
    assert ManglePath(Numbered(0, Crate(a))) == "s_C1a";
    hide Base62Text;
    assert MangleType(Named(item)) == "NtC1a1S" && ShowType(Named(item)) == "a::S";
    BlockForm(block, f);
  }

  lemma LetterMangled(letter: string)
    requires |letter| == 1
    ensures MangleIdent(Ident(None, false, false, letter)) == "1" + letter
  {
    assert DecimalText(1) == "1";
  }

  lemma BlockForm(block: PathTree, f: Ident)
    requires block.InherentImpl? && ManglePath(block.impl) == "s_C1a" && MangleType(block.self) == "NtC1a1S"
    requires ShowType(block.self) == "a::S" && MangleIdent(f) == "1f" && f.name == "f"
    ensures ManglePath(Nested('v', block, f)) == IMPL_BODY && ShowPath(Nested('v', block, f)) == "<a::S>::f"
  {
    hide MangleIdent, MangleType, ShowType;
    assert ManglePath(block) == "M" + ("s_C1a" + "NtC1a1S") && ShowPath(block) == "<" + "a::S" + ">";
  }

  const CLOSURE_BODY: Body := "NvNvC1a03foo"

  // A concrete name that the grammar allows and the demangler gives up on: `foo` inside
  // an item without a name inside crate `a`.  The empty name's "0" and the length "3" of
  // `foo` are read as the one number 3.
  lemma ClosureNameIsLost()
    ensures var foo := Ident(None, false, false, "foo");
      var closure := Nested('v', Crate(Ident(None, false, false, "a")), Ident(None, false, false, ""));
      && ManglePath(Nested('v', closure, foo)) == CLOSURE_BODY
      && ShowPath(Nested('v', closure, foo)) == "a" + "" + ("::" + "foo")
    ensures Run(CLOSURE_BODY) == None
  {
    var body := CLOSURE_BODY;
    ClosureMangled();
    ClosureMisread();
    assert Identifier(body, 12, 5, 1) == Fail(6);
    hide Path, Identifier, ManglePath, ShowPath;
    assert PathInner(body, 0, 1, 1) == NestedPath(body, 2, 1, 1) == Fail(6);
    assert Peek(body, 0) == 'N';
  }

  lemma ClosureMangled()
    ensures var foo := Ident(None, false, false, "foo");
      var closure := Nested('v', Crate(Ident(None, false, false, "a")), Ident(None, false, false, ""));
      ManglePath(Nested('v', closure, foo)) == CLOSURE_BODY
  {
    assert DecimalText(0) == "0" && DecimalText(1) == "1" && DecimalText(3) == "3";
  }

  lemma ClosureMisread()
    ensures Path(CLOSURE_BODY, 2, 1, 1) == Done("a::foo", 12, 5)
  {
    var body := CLOSURE_BODY;
    var a := Identifier(body, 5, 3, 3);
    assert Decimal(body, 5) == Some(Number(1, 6)) by { assert DecimalRun(body, 5, 0) == DecimalRun(body, 6, 1); }
    assert a == Done("a", 7, 4);
    assert Path(body, 4, 2, 2) == a by { assert PathInner(body, 4, 3, 3) == a; }
    assert Decimal(body, 7) == Some(Number(3, 9)) by {
      assert DecimalRun(body, 7, 0) == DecimalRun(body, 8, 0) == DecimalRun(body, 9, 3);
    }
    assert Identifier(body, 7, 4, 2) == Done("foo", 12, 5);
    assert PathInner(body, 2, 2, 2) == NestedPath(body, 4, 2, 2) == Done("a" + ("::" + "foo"), 12, 5);
  }
}
