// What each parsing routine of the Rust v0 demangler computes, as functions of the
// mangled body, the position, and the two budget counters.

module RustV0Parse {
  import opened Common

  const STEP_LIMIT: nat := 20000
  const DEPTH_LIMIT: nat := 256

  // A std::string_view never holds more than half of the address space.
  const MAX_BODY: nat := 0x8000_0000_0000_0000

  type Body = s: string | |s| < MAX_BODY

  // A routine either sets `failed_`, or appends `text` and leaves the cursor at `next`.
  // Both outcomes say how many budget steps have been spent in all.
  datatype Parse = Fail(steps: nat) | Done(text: string, next: nat, steps: nat)

  // A number and the position after it.
  datatype Number = Number(value: uint64, next: nat)

  function Peek(body: string, p: nat): char {
    if p < |body| then body[p] else '\0'
  }

  function Prepend(text: string, r: Parse): Parse {
    match r
    case Fail(_) => r
    case Done(t, next, steps) => Done(text + t, next, steps)
  }

  predicate IsDecimal(c: char) {
    '0' <= c <= '9'
  }

  function Base62Digit(c: char): Option<nat> {
    if '0' <= c <= '9' then Some((c - '0') as nat)
    else if 'a' <= c <= 'z' then Some(10 + (c - 'a') as nat)
    else if 'A' <= c <= 'Z' then Some(36 + (c - 'A') as nat)
    else None
  }

  // The digit run starting at p, accumulated onto acc with 64-bit wrap-around.
  function Base62Run(body: string, p: nat, acc: uint64): (n: Number)
    ensures p <= n.next && (p <= |body| ==> n.next <= |body|)
    decreases |body| - p
  {
    if p < |body| && Base62Digit(body[p]).Some? then
      Base62Run(body, p + 1, (acc * 62 + Base62Digit(body[p]).value) % TWO64)
    else Number(acc, p)
  }

  function Base62(body: string, p: nat): (n: Option<Number>)
    ensures n.Some? ==> p < n.value.next <= |body|
  {
    if Peek(body, p) == '_' then Some(Number(0, p + 1))
    else
      var run := Base62Run(body, p, 0);
      if Peek(body, run.next) != '_' then None
      else Some(Number(if run.next > p then (run.value + 1) % TWO64 else 0, run.next + 1))
  }

  function DecimalRun(body: string, p: nat, acc: uint64): (n: Number)
    ensures p <= n.next && (p <= |body| ==> n.next <= |body|)
    decreases |body| - p
  {
    if p < |body| && IsDecimal(body[p]) then
      DecimalRun(body, p + 1, (acc * 10 + (body[p] - '0') as nat) % TWO64)
    else Number(acc, p)
  }

  function Decimal(body: string, p: nat): (n: Option<Number>)
    ensures n.Some? ==> p < n.value.next <= |body|
  {
    var run := DecimalRun(body, p, 0);
    if run.next > p then Some(run) else None
  }

  predicate Exhausted(steps: nat, depth: nat) {
    steps > STEP_LIMIT || depth > DEPTH_LIMIT
  }

  // The part of an identifier after its optional disambiguator.
  function IdentifierTail(body: Body, p: nat, steps: nat): (r: Parse)
    ensures r.steps == steps
    ensures r.Done? ==> r.next <= |body| && |r.text| <= |body|
  {
    var q := if Peek(body, p) == 'u' then p + 1 else p;
    var length := Decimal(body, q);
    if length.None? then Fail(steps)
    else
      var start := if Peek(body, length.value.next) == '_' then length.value.next + 1 else length.value.next;
      var end := Add64(start, length.value.value);
      if end > |body| then Fail(steps)
      // substr stops at the end of the body; the cursor moves by the wrapped sum.
      else Done(body[start..if start + length.value.value <= |body| then start + length.value.value else |body|], end, steps)
  }

  function Identifier(body: Body, p: nat, steps: nat, depth: nat): (r: Parse)
    requires steps <= STEP_LIMIT
    ensures r.steps == steps + 1
    ensures r.Done? ==> r.steps <= STEP_LIMIT && r.next <= |body|
  {
    var s := steps + 1;
    if Exhausted(s, depth) then Fail(s)
    else if Peek(body, p) == 's' then
      var disambiguator := Base62(body, p + 1);
      if disambiguator.None? then Fail(s) else IdentifierTail(body, disambiguator.value.next, s)
    else IdentifierTail(body, p, s)
  }

  function Path(body: Body, p: nat, steps: nat, depth: nat): (r: Parse)
    requires steps <= STEP_LIMIT
    ensures steps < r.steps <= STEP_LIMIT + 1
    ensures r.Done? ==> r.steps <= STEP_LIMIT && r.next <= |body| + 1
    decreases STEP_LIMIT - steps, 0
  {
    if Exhausted(steps + 1, depth) then Fail(steps + 1)
    else PathInner(body, p, steps + 1, depth + 1)
  }

  function PathInner(body: Body, p: nat, steps: nat, depth: nat): (r: Parse)
    requires steps <= STEP_LIMIT
    ensures steps <= r.steps <= STEP_LIMIT + 1
    ensures r.Done? ==> r.steps <= STEP_LIMIT && r.next <= |body| + 1
    decreases STEP_LIMIT - steps, 3
  {
    match Peek(body, p)
    case 'C' => Identifier(body, p + 1, steps, depth)
    case 'N' => NestedPath(body, p + 2, steps, depth)
    case 'I' =>
      var base := Path(body, p + 1, steps, depth);
      if base.Fail? then base
      else Prepend(base.text + "::<", GenericArgs(body, base.next, base.steps, depth, true))
    case 'B' =>
      var offset := Base62(body, p + 1);
      if offset.None? || offset.value.value >= |body| then Fail(steps)
      else
        var target := Path(body, offset.value.value, steps, depth);
        if target.Fail? then target else Done(target.text, offset.value.next, target.steps)
    case 'M' =>
      var impl := Path(body, p + 1, steps, depth);
      if impl.Fail? then impl
      else
        var ty := Type(body, impl.next, impl.steps, depth);
        if ty.Fail? then ty else Done("<" + ty.text + ">", ty.next, ty.steps)
    case 'X' =>
      var impl := Path(body, p + 1, steps, depth);
      if impl.Fail? then impl else TypeAsTrait(body, impl.next, impl.steps, depth)
    case 'Y' => TypeAsTrait(body, p + 1, steps, depth)
    case _ => Fail(steps)
  }

  // parent, "::", identifier; an empty identifier adds nothing.
  function NestedPath(body: Body, p: nat, steps: nat, depth: nat): (r: Parse)
    requires steps <= STEP_LIMIT
    ensures steps <= r.steps <= STEP_LIMIT + 1
    ensures r.Done? ==> r.steps <= STEP_LIMIT && r.next <= |body| + 1
    decreases STEP_LIMIT - steps, 2
  {
    var parent := Path(body, p, steps, depth);
    if parent.Fail? then parent
    else
      var ident := Identifier(body, parent.next, parent.steps, depth);
      if ident.Fail? then ident
      else Done(parent.text + (if ident.text == "" then "" else "::" + ident.text), ident.next, ident.steps)
  }

  function TypeAsTrait(body: Body, p: nat, steps: nat, depth: nat): (r: Parse)
    requires steps <= STEP_LIMIT
    ensures steps <= r.steps <= STEP_LIMIT + 1
    ensures r.Done? ==> r.steps <= STEP_LIMIT && r.next <= |body| + 1
    decreases STEP_LIMIT - steps, 2
  {
    var ty := Type(body, p, steps, depth);
    if ty.Fail? then ty
    else
      var tr := Path(body, ty.next, ty.steps, depth);
      if tr.Fail? then tr else Done("<" + ty.text + " as " + tr.text + ">", tr.next, tr.steps)
  }

  // The argument loop up to and including the closing 'E' and the ">" it prints.
  function GenericArgs(body: Body, p: nat, steps: nat, depth: nat, first: bool): (r: Parse)
    requires steps <= STEP_LIMIT
    ensures steps <= r.steps <= STEP_LIMIT + 1
    ensures r.Done? ==> r.steps <= STEP_LIMIT && r.next <= |body| + 1
    ensures Peek(body, p) != 'E' && p < |body| ==> steps < r.steps
    decreases STEP_LIMIT - steps, 2
  {
    if Peek(body, p) == 'E' then Done(">", p + 1, steps)
    else if p >= |body| then Fail(steps)
    else if Exhausted(steps + 1, depth) then Fail(steps + 1)
    else
      var arg := GenericArg(body, p, steps + 1, depth);
      if arg.Fail? then arg
      else Prepend((if first then "" else ", ") + arg.text, GenericArgs(body, arg.next, arg.steps, depth, false))
  }

  function GenericArg(body: Body, p: nat, steps: nat, depth: nat): (r: Parse)
    requires steps <= STEP_LIMIT
    ensures steps <= r.steps <= STEP_LIMIT + 1
    ensures r.Done? ==> r.steps <= STEP_LIMIT && r.next <= |body| + 1
    decreases STEP_LIMIT - steps, 2
  {
    match Peek(body, p)
    case 'L' =>
      var lifetime := Base62(body, p + 1);
      if lifetime.None? then Fail(steps) else Done("'_", lifetime.value.next, steps)
    case 'K' => Const(body, p + 1, steps, depth)
    case _ => Type(body, p, steps, depth)
  }

  // End of the digit text of a constant: the first '_' or the end of the body.
  function DigitsEnd(body: string, p: nat): (q: nat)
    ensures p <= q && (p <= |body| ==> q <= |body|)
    ensures q < |body| ==> body[q] == '_'
    decreases |body| - p
  {
    if p < |body| && body[p] != '_' then DigitsEnd(body, p + 1) else p
  }

  function Digits(body: string, p: nat): string {
    var q := DigitsEnd(body, p);
    if q <= |body| then body[p..q] else ""
  }

  function Const(body: Body, p: nat, steps: nat, depth: nat): (r: Parse)
    requires steps <= STEP_LIMIT
    ensures steps <= r.steps <= STEP_LIMIT + 1
    ensures r.Done? ==> r.steps <= STEP_LIMIT && r.next <= |body| + 1
    decreases STEP_LIMIT - steps, 1
  {
    if Peek(body, p) == 'p' then Done("_", p + 1, steps)
    else
      var ty := Type(body, p, steps, depth);
      if ty.Fail? then ty
      else
        var start := if Peek(body, ty.next) == 'n' then ty.next + 1 else ty.next;
        var end := DigitsEnd(body, start);
        var digits := Digits(body, start);
        Done(if digits == "" then "_" else digits, if Peek(body, end) == '_' then end + 1 else end, ty.steps)
  }

  function Type(body: Body, p: nat, steps: nat, depth: nat): (r: Parse)
    requires steps <= STEP_LIMIT
    ensures steps < r.steps <= STEP_LIMIT + 1
    ensures r.Done? ==> r.steps <= STEP_LIMIT && r.next <= |body| + 1
    decreases STEP_LIMIT - steps, 0
  {
    if Exhausted(steps + 1, depth) then Fail(steps + 1)
    else TypeInner(body, p, steps + 1, depth + 1)
  }

  function BasicType(tag: char): Option<string> {
    match tag
    case 'a' => Some("i8")
    case 'b' => Some("bool")
    case 'c' => Some("char")
    case 'd' => Some("f64")
    case 'e' => Some("str")
    case 'f' => Some("f32")
    case 'h' => Some("u8")
    case 'i' => Some("isize")
    case 'j' => Some("usize")
    case 'l' => Some("i32")
    case 'm' => Some("u32")
    case 'n' => Some("i128")
    case 'o' => Some("u128")
    case 's' => Some("i16")
    case 't' => Some("u16")
    case 'u' => Some("()")
    case 'x' => Some("i64")
    case 'y' => Some("u64")
    case 'z' => Some("!")
    case 'p' => Some("_")
    case _ => None
  }

  predicate IsPathTag(tag: char) {
    tag == 'C' || tag == 'N' || tag == 'I' || tag == 'M' || tag == 'X' || tag == 'Y'
  }

  function TypeInner(body: Body, p: nat, steps: nat, depth: nat): (r: Parse)
    requires steps <= STEP_LIMIT
    ensures steps <= r.steps <= STEP_LIMIT + 1
    ensures r.Done? ==> r.steps <= STEP_LIMIT && r.next <= |body| + 1
    decreases STEP_LIMIT - steps, 4
  {
    var tag := Peek(body, p);
    if BasicType(tag).Some? then Done(BasicType(tag).value, p + 1, steps)
    else CompoundType(body, p, steps, depth)
  }

  function CompoundType(body: Body, p: nat, steps: nat, depth: nat): (r: Parse)
    requires steps <= STEP_LIMIT
    ensures steps <= r.steps <= STEP_LIMIT + 1
    ensures r.Done? ==> r.steps <= STEP_LIMIT && r.next <= |body| + 1
    decreases STEP_LIMIT - steps, 3
  {
    var tag := Peek(body, p);
    match tag
    case 'A' => ArrayType(body, p + 1, steps, depth)
    case 'S' =>
      var element := Type(body, p + 1, steps, depth);
      if element.Fail? then element else Done("[" + element.text + "]", element.next, element.steps)
    case 'R' => Reference(body, p + 1, steps, depth, "&")
    case 'Q' => Reference(body, p + 1, steps, depth, "&mut ")
    case 'P' => Prepend("*const ", Type(body, p + 1, steps, depth))
    case 'O' => Prepend("*mut ", Type(body, p + 1, steps, depth))
    case 'T' => Prepend("(", TupleElements(body, p + 1, steps, depth, true))
    case 'B' =>
      var offset := Base62(body, p + 1);
      if offset.None? || offset.value.value >= |body| then Fail(steps)
      else
        var target := Type(body, offset.value.value, steps, depth);
        if target.Fail? then target else Done(target.text, offset.value.next, target.steps)
    case _ => if IsPathTag(tag) then Path(body, p, steps, depth) else Fail(steps)
  }

  function ArrayType(body: Body, p: nat, steps: nat, depth: nat): (r: Parse)
    requires steps <= STEP_LIMIT
    ensures steps <= r.steps <= STEP_LIMIT + 1
    ensures r.Done? ==> r.steps <= STEP_LIMIT && r.next <= |body| + 1
    decreases STEP_LIMIT - steps, 2
  {
    var element := Type(body, p, steps, depth);
    if element.Fail? then element
    else
      var length := Const(body, element.next, element.steps, depth);
      if length.Fail? then length
      else Done("[" + element.text + "; " + length.text + "]", length.next, length.steps)
  }

  // The pointee of a reference, after its optional lifetime.
  function Reference(body: Body, p: nat, steps: nat, depth: nat, sigil: string): (r: Parse)
    requires steps <= STEP_LIMIT
    ensures steps <= r.steps <= STEP_LIMIT + 1
    ensures r.Done? ==> r.steps <= STEP_LIMIT && r.next <= |body| + 1
    decreases STEP_LIMIT - steps, 1
  {
    if Peek(body, p) == 'L' then
      var lifetime := Base62(body, p + 1);
      if lifetime.None? then Fail(steps) else Prepend(sigil, Type(body, lifetime.value.next, steps, depth))
    else Prepend(sigil, Type(body, p, steps, depth))
  }

  function TupleElements(body: Body, p: nat, steps: nat, depth: nat, first: bool): (r: Parse)
    requires steps <= STEP_LIMIT
    ensures steps <= r.steps <= STEP_LIMIT + 1
    ensures r.Done? ==> r.steps <= STEP_LIMIT && r.next <= |body| + 1
    ensures Peek(body, p) != 'E' && p < |body| ==> steps < r.steps
    decreases STEP_LIMIT - steps, 1
  {
    if Peek(body, p) == 'E' then Done(")", p + 1, steps)
    else if p >= |body| then Fail(steps)
    else if Exhausted(steps + 1, depth) then Fail(steps + 1)
    else
      var element := Type(body, p, steps + 1, depth);
      if element.Fail? then element
      else Prepend((if first then "" else ", ") + element.text, TupleElements(body, element.next, element.steps, depth, false))
  }

  function SkipDecimals(body: string, p: nat): (q: nat)
    ensures p <= q
    decreases |body| - p
  {
    if IsDecimal(Peek(body, p)) then SkipDecimals(body, p + 1) else p
  }

  // The whole run: an optional leading decimal, then one path.
  function Run(body: Body): Option<string> {
    var start := if '1' <= Peek(body, 0) <= '9' then SkipDecimals(body, 0) else 0;
    var r := Path(body, start, 0, 0);
    if r.Done? then Some(r.text) else None
  }

  // A name of the Rust v0 scheme is shown demangled, or as it is when that fails; any
  // other name is handed to the C++ runtime, whose answer is the second argument.
  function Demangle(name: Body, foreign: string): string {
    if |name| < 2 || name[0] != '_' || name[1] != 'R' then foreign
    else if |name| < 3 then name
    else match Run(name[2..])
      case Some(text) => text
      case None => name
  }
}
