// The names the demangler is for: syntax trees of the grammar of Rust RFC 2603, section
// "Syntax of mangled names", with their mangled form, their displayed form, and what
// demangling them costs.  A tree may hold backreferences; each carries the tree it
// stands for.

module RustV0Mangle {
  import opened Common
  import opened Slices
  import opened RustV0Parse

  datatype Ident = Ident(disambiguator: Option<nat>, punycode: bool, separator: bool, name: string)

  // The path of an implementation may have a disambiguator of its own, in front.
  datatype PathTree =
    | Crate(id: Ident)
    | Nested(ns: char, parent: PathTree, id: Ident)
    | Generic(base: PathTree, args: Args)
    | InherentImpl(impl: PathTree, self: TypeTree)
    | TraitImpl(impl: PathTree, self: TypeTree, of: PathTree)
    | TraitDefinition(self: TypeTree, of: PathTree)
    | PathRef(at: nat, target: PathTree)
    | Numbered(disambiguator: nat, impl: PathTree)

  // The basic types; the last is the placeholder for an inferred one.
  datatype BasicKind =
    | I8 | I16 | I32 | I64 | I128 | Isize
    | U8 | U16 | U32 | U64 | U128 | Usize
    | F32 | F64 | Bool | Char | Str | Unit | Never | Inferred

  datatype TypeTree =
    | Basic(kind: BasicKind)
    | Array(element: TypeTree, length: ConstTree)
    | Slice(element: TypeTree)
    | Ref(mutable: bool, lifetime: Option<nat>, pointee: TypeTree)
    | Ptr(mutable: bool, pointee: TypeTree)
    | Tuple(elements: Types)
    | Named(path: PathTree)
    | TypeRef(at: nat, target: TypeTree)

  // A value has a sign and hexadecimal digits.
  datatype ConstTree = Placeholder | Value(ty: TypeTree, negative: bool, digits: string)

  datatype Arg = LifetimeArg(n: nat) | TypeArg(ty: TypeTree) | ConstArg(c: ConstTree)

  datatype Args = NoArgs | MoreArgs(head: Arg, tail: Args)

  datatype Types = NoTypes | MoreTypes(head: TypeTree, tail: Types)

  // ---------- numbers ----------

  function DecimalChar(d: nat): (c: char)
    requires d < 10
    ensures IsDecimal(c) && (c - '0') as nat == d
  {
    '0' + d as char
  }

  function DecimalText(n: nat): (s: string)
    ensures |s| > 0 && IsDecimal(s[0])
  {
    if n < 10 then [DecimalChar(n)] else DecimalText(n / 10) + [DecimalChar(n % 10)]
  }

  function Base62Char(d: nat): (c: char)
    requires d < 62
    ensures Base62Digit(c) == Some(d)
  {
    if d < 10 then '0' + d as char else if d < 36 then 'a' + (d - 10) as char else 'A' + (d - 36) as char
  }

  function Base62Digits(n: nat): (s: string)
    ensures |s| > 0
  {
    if n < 62 then [Base62Char(n)] else Base62Digits(n / 62) + [Base62Char(n % 62)]
  }

  function Base62Text(n: nat): (s: string)
    ensures |s| > 0
  {
    if n == 0 then "_" else Base62Digits(n - 1) + "_"
  }

  // ---------- mangled form ----------

  function MangleIdent(id: Ident): string {
    (if id.disambiguator.Some? then "s" + Base62Text(id.disambiguator.value) else "") + MangleName(id)
  }

  function MangleName(id: Ident): string {
    (if id.punycode then "u" else "") + DecimalText(|id.name|) + (if id.separator then "_" else "") + id.name
  }

  function ManglePath(p: PathTree): string {
    match p
    case Crate(id) => "C" + MangleIdent(id)
    case Nested(ns, parent, id) => ['N', ns] + (ManglePath(parent) + MangleIdent(id))
    case Generic(base, args) => "I" + (ManglePath(base) + (MangleArgs(args) + "E"))
    case InherentImpl(impl, self) => "M" + (ManglePath(impl) + MangleType(self))
    case TraitImpl(impl, self, of) => "X" + (ManglePath(impl) + (MangleType(self) + ManglePath(of)))
    case TraitDefinition(self, of) => "Y" + (MangleType(self) + ManglePath(of))
    case PathRef(at, _) => "B" + Base62Text(at)
    case Numbered(disambiguator, impl) => "s" + (Base62Text(disambiguator) + ManglePath(impl))
  }

  // The letter of a basic type.
  function BasicCode(kind: BasicKind): char {
    match kind
    case I8 => 'a'
    case I16 => 's'
    case I32 => 'l'
    case I64 => 'x'
    case I128 => 'n'
    case Isize => 'i'
    case U8 => 'h'
    case U16 => 't'
    case U32 => 'm'
    case U64 => 'y'
    case U128 => 'o'
    case Usize => 'j'
    case F32 => 'f'
    case F64 => 'd'
    case Bool => 'b'
    case Char => 'c'
    case Str => 'e'
    case Unit => 'u'
    case Never => 'z'
    case Inferred => 'p'
  }

  function MangleType(t: TypeTree): string {
    match t
    case Basic(kind) => [BasicCode(kind)]
    case Array(element, length) => "A" + (MangleType(element) + MangleConst(length))
    case Slice(element) => "S" + MangleType(element)
    case Ref(mutable, lifetime, pointee) =>
      ((if mutable then "Q" else "R") + MangleLifetime(lifetime)) + MangleType(pointee)
    case Ptr(mutable, pointee) => (if mutable then "O" else "P") + MangleType(pointee)
    case Tuple(elements) => "T" + (MangleTypes(elements) + "E")
    case Named(path) => ManglePath(path)
    case TypeRef(at, _) => "B" + Base62Text(at)
  }

  function MangleLifetime(lifetime: Option<nat>): string {
    if lifetime.Some? then "L" + Base62Text(lifetime.value) else ""
  }

  function MangleConst(c: ConstTree): string {
    match c
    case Placeholder => "p"
    case Value(ty, _, _) => MangleType(ty) + MangleValue(c)
  }

  // What stands behind the type.
  function MangleValue(c: ConstTree): string
    requires c.Value?
  {
    (if c.negative then "n" else "") + (c.digits + "_")
  }

  function MangleArg(a: Arg): string {
    match a
    case LifetimeArg(n) => "L" + Base62Text(n)
    case TypeArg(ty) => MangleType(ty)
    case ConstArg(c) => "K" + MangleConst(c)
  }

  function MangleArgs(args: Args): string {
    match args
    case NoArgs => ""
    case MoreArgs(head, tail) => MangleArg(head) + MangleArgs(tail)
  }

  function MangleTypes(types: Types): string {
    match types
    case NoTypes => ""
    case MoreTypes(head, tail) => MangleType(head) + MangleTypes(tail)
  }

  // ---------- displayed form ----------

  function ShowPath(p: PathTree): string {
    match p
    case Crate(id) => id.name
    case Nested(_, parent, id) => ShowPath(parent) + (if id.name == "" then "" else "::" + id.name)
    case Generic(base, args) => ShowPath(base) + "::<" + (ShowArgs(args) + ">")
    case InherentImpl(_, self) => "<" + ShowType(self) + ">"
    case TraitImpl(_, self, of) => "<" + ShowType(self) + " as " + ShowPath(of) + ">"
    case TraitDefinition(self, of) => "<" + ShowType(self) + " as " + ShowPath(of) + ">"
    case PathRef(_, target) => ShowPath(target)
    case Numbered(_, impl) => ShowPath(impl)
  }

  // A basic type as Rust writes it.
  function BasicName(kind: BasicKind): string {
    match kind
    case I8 => "i8"
    case I16 => "i16"
    case I32 => "i32"
    case I64 => "i64"
    case I128 => "i128"
    case Isize => "isize"
    case U8 => "u8"
    case U16 => "u16"
    case U32 => "u32"
    case U64 => "u64"
    case U128 => "u128"
    case Usize => "usize"
    case F32 => "f32"
    case F64 => "f64"
    case Bool => "bool"
    case Char => "char"
    case Str => "str"
    case Unit => "()"
    case Never => "!"
    case Inferred => "_"
  }

  function ShowType(t: TypeTree): string {
    match t
    case Basic(kind) => BasicName(kind)
    case Array(element, length) => "[" + ShowType(element) + "; " + ShowConst(length) + "]"
    case Slice(element) => "[" + ShowType(element) + "]"
    case Ref(mutable, _, pointee) => (if mutable then "&mut " else "&") + ShowType(pointee)
    case Ptr(mutable, pointee) => (if mutable then "*mut " else "*const ") + ShowType(pointee)
    case Tuple(elements) => "(" + (ShowTypes(elements) + ")")
    case Named(path) => ShowPath(path)
    case TypeRef(_, target) => ShowType(target)
  }

  function ShowConst(c: ConstTree): string {
    match c
    case Placeholder => "_"
    case Value(_, _, digits) => if digits == "" then "_" else digits
  }

  function ShowArg(a: Arg): string {
    match a
    case LifetimeArg(_) => "'_"
    case TypeArg(ty) => ShowType(ty)
    case ConstArg(c) => ShowConst(c)
  }

  function ShowArgs(args: Args): string {
    match args
    case NoArgs => ""
    case MoreArgs(head, NoArgs) => ShowArg(head)
    case MoreArgs(head, tail) => ShowArg(head) + (", " + ShowArgs(tail))
  }

  function ShowTypes(types: Types): string {
    match types
    case NoTypes => ""
    case MoreTypes(head, NoTypes) => ShowType(head)
    case MoreTypes(head, tail) => ShowType(head) + (", " + ShowTypes(tail))
  }

  // ---------- cost in budget steps ----------

  // More steps than there are: the demangler knows no disambiguator in front of a path.
  const UNAFFORDABLE: nat := 20001

  function CostPath(p: PathTree): nat {
    match p
    case Crate(_) => 2
    case Nested(_, parent, _) => CostPath(parent) + 2
    case Generic(base, args) => 1 + CostPath(base) + CostArgs(args)
    case InherentImpl(impl, self) => 1 + CostPath(impl) + CostType(self)
    case TraitImpl(impl, self, of) => 1 + CostPath(impl) + CostType(self) + CostPath(of)
    case TraitDefinition(self, of) => 1 + CostType(self) + CostPath(of)
    case PathRef(_, target) => 1 + CostPath(target)
    case Numbered(_, impl) => UNAFFORDABLE + CostPath(impl)
  }

  function CostType(t: TypeTree): nat {
    match t
    case Basic(_) => 1
    case Array(element, length) => 1 + CostType(element) + CostConst(length)
    case Slice(element) => 1 + CostType(element)
    case Ref(_, _, pointee) => 1 + CostType(pointee)
    case Ptr(_, pointee) => 1 + CostType(pointee)
    case Tuple(elements) => 1 + CostTypes(elements)
    case Named(path) => 1 + CostPath(path)
    case TypeRef(_, target) => 1 + CostType(target)
  }

  function CostConst(c: ConstTree): nat {
    if c.Placeholder? then 0 else CostType(c.ty)
  }

  function CostArg(a: Arg): nat {
    match a
    case LifetimeArg(_) => 0
    case TypeArg(ty) => CostType(ty)
    case ConstArg(c) => CostConst(c)
  }

  function CostArgs(args: Args): nat {
    if args.NoArgs? then 0 else 1 + CostArg(args.head) + CostArgs(args.tail)
  }

  function CostTypes(types: Types): nat {
    if types.NoTypes? then 0 else 1 + CostType(types.head) + CostTypes(types.tail)
  }

  // ---------- nesting below the routine that is entered ----------

  function Max(a: nat, b: nat): nat {
    if a < b then b else a
  }

  function NestPath(p: PathTree): (n: nat)
    ensures n > 0
  {
    match p
    case Crate(_) => 1
    case Nested(_, parent, _) => 1 + NestPath(parent)
    case Generic(base, args) => 1 + Max(NestPath(base), NestArgs(args))
    case InherentImpl(impl, self) => 1 + Max(NestPath(impl), NestType(self))
    case TraitImpl(impl, self, of) => 1 + Max(NestPath(impl), Max(NestType(self), NestPath(of)))
    case TraitDefinition(self, of) => 1 + Max(NestType(self), NestPath(of))
    case PathRef(_, target) => 1 + NestPath(target)
    case Numbered(_, impl) => NestPath(impl)
  }

  function NestType(t: TypeTree): nat {
    match t
    case Basic(_) => 0
    case Array(element, length) => 1 + Max(NestType(element), NestConst(length))
    case Slice(element) => 1 + NestType(element)
    case Ref(_, _, pointee) => 1 + NestType(pointee)
    case Ptr(_, pointee) => 1 + NestType(pointee)
    case Tuple(elements) => if elements.NoTypes? then 0 else 1 + NestTypes(elements)
    case Named(path) => 1 + NestPath(path)
    case TypeRef(_, target) => 1 + NestType(target)
  }

  function NestConst(c: ConstTree): nat {
    if c.Placeholder? then 0 else NestType(c.ty)
  }

  function NestArg(a: Arg): nat {
    match a
    case LifetimeArg(_) => 0
    case TypeArg(ty) => NestType(ty)
    case ConstArg(c) => NestConst(c)
  }

  function NestArgs(args: Args): nat {
    if args.NoArgs? then 0 else Max(NestArg(args.head), NestArgs(args.tail))
  }

  function NestTypes(types: Types): nat {
    if types.NoTypes? then 0 else Max(NestType(types.head), NestTypes(types.tail))
  }

  // A tree fits when its steps and its nesting stay inside the budget of 20000 and 256.
  predicate Fits(cost: nat, nest: nat, steps: nat, depth: nat) {
    steps + cost <= 20000 && depth + nest <= 256
  }

  // ---------- which trees a body holds ----------

  predicate IsHexDigit(c: char) {
    '0' <= c <= '9' || 'a' <= c <= 'f'
  }

  // An empty identifier written without a separator ends in a bare "0".
  predicate OpenIdent(id: Ident) {
    id.name == "" && !id.separator
  }

  // The mangled form ends in such an identifier.
  predicate OpenPath(p: PathTree) {
    match p
    case Crate(id) => OpenIdent(id)
    case Nested(_, _, id) => OpenIdent(id)
    case Generic(_, _) => false
    case InherentImpl(_, self) => OpenType(self)
    case TraitImpl(_, _, of) => OpenPath(of)
    case TraitDefinition(_, of) => OpenPath(of)
    case PathRef(_, _) => false
    case Numbered(_, impl) => OpenPath(impl)
  }

  predicate OpenType(t: TypeTree) {
    match t
    case Basic(_) => false
    case Array(_, _) => false
    case Slice(element) => OpenType(element)
    case Ref(_, _, pointee) => OpenType(pointee)
    case Ptr(_, pointee) => OpenType(pointee)
    case Tuple(_) => false
    case Named(path) => OpenPath(path)
    case TypeRef(_, _) => false
  }

  predicate OpenArg(a: Arg) {
    a.TypeArg? && OpenType(a.ty)
  }

  // What may stand at p when the tree before p ends in a bare "0": the decimal reader
  // would run on into a digit, and the separator test would eat an underscore.
  predicate Closed(open: bool, body: string, p: nat) {
    open ==> !IsDecimal(Peek(body, p)) && Peek(body, p) != '_'
  }

  predicate GoodIdent(id: Ident) {
    id.name != "" && (IsDecimal(id.name[0]) || id.name[0] == '_') ==> id.separator
  }

  // The identifier's own mangled form starts with a digit.
  predicate StartsWithDigit(id: Ident) {
    id.disambiguator.None? && !id.punycode
  }

  // Every tree is well formed, and every backreference points at an occurrence of the
  // tree it stands for, in whichever direction.
  predicate GoodPath(body: string, p: PathTree) {
    match p
    case Crate(id) => GoodIdent(id)
    case Nested(_, parent, id) =>
      GoodPath(body, parent) && GoodIdent(id) && !(OpenPath(parent) && StartsWithDigit(id))
    case Generic(base, args) => GoodPath(body, base) && GoodArgs(body, args)
    case InherentImpl(impl, self) => GoodPath(body, impl) && GoodType(body, self)
    case TraitImpl(impl, self, of) => GoodPath(body, impl) && GoodType(body, self) && GoodPath(body, of)
    case TraitDefinition(self, of) => GoodType(body, self) && GoodPath(body, of)
    case PathRef(at, target) =>
      && GoodPath(body, target)
      && At(body, at, ManglePath(target))
      && Closed(OpenPath(target), body, at + |ManglePath(target)|)
    case Numbered(_, impl) => GoodPath(body, impl)
  }

  predicate GoodType(body: string, t: TypeTree) {
    match t
    case Basic(_) => true
    case Array(element, length) => GoodType(body, element) && GoodConst(body, length)
    case Slice(element) => GoodType(body, element)
    case Ref(_, _, pointee) => GoodType(body, pointee)
    case Ptr(_, pointee) => GoodType(body, pointee)
    case Tuple(elements) => GoodTypes(body, elements)
    case Named(path) => GoodPath(body, path) && !path.PathRef? && !path.Numbered?
    case TypeRef(at, target) =>
      && GoodType(body, target)
      && At(body, at, MangleType(target))
      && Closed(OpenType(target), body, at + |MangleType(target)|)
  }

  predicate GoodConst(body: string, c: ConstTree) {
    match c
    case Placeholder => true
    case Value(ty, negative, digits) =>
      && GoodType(body, ty) && ty != Basic(Inferred)
      && (forall i | 0 <= i < |digits| :: IsHexDigit(digits[i]))
      && (OpenType(ty) ==> negative || (digits != "" && !IsDecimal(digits[0])))
  }

  predicate GoodArg(body: string, a: Arg) {
    match a
    case LifetimeArg(_) => true
    case TypeArg(ty) => GoodType(body, ty)
    case ConstArg(c) => GoodConst(body, c)
  }

  predicate GoodArgs(body: string, args: Args) {
    args.MoreArgs? ==> GoodArg(body, args.head) && GoodArgs(body, args.tail)
  }

  predicate GoodTypes(body: string, types: Types) {
    types.MoreTypes? ==> GoodType(body, types.head) && GoodTypes(body, types.tail)
  }
}
