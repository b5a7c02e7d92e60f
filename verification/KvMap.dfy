/** Filling a request message from the gateway's key-value parameters
    (`GateWay/HTTPMessage/kvmap2pb.go`). */
module KvMap {
  import opened Decimal
  import opened KvText
  import opened Results

  datatype Kind = StringKind | IntKind(bits: nat) | BoolKind | SliceKind(elem: Elem) | OtherKind

  datatype Elem = IntElem(bits: nat) | StringElem | OtherElem

  datatype Field = Field(settable: bool, jsonTag: string, kind: Kind)

  datatype Held = Str(s: string) | Int(n: int) | Bool(b: bool) | Ints(ns: seq<int>) | Strs(ss: seq<string>) | Opaque

  datatype FillError = EmptyTag | EmptyName | IdNotString | Missing | BadText | BadSlice | BadKind

  /** The field's new value and, when it could not be filled, why. */
  datatype Outcome = Outcome(value: Held, error: Option<FillError>)

  /** The request's parameters; `autoId` is the identifier made up when none is given, `validUtf8` the
      test of `unicode/utf8`. */
  datatype Params = Params(kv: map<string, string>, autoId: string, validUtf8: string -> bool)

  const BRACKETS := {'[', ' ', ']'}
  const SPACE := {' '}

  predicate MustExist(name: string) {
    name in {"request_id", "user_id", "ll_id", "res_type"}
  }

  predicate WidthOk(kind: Kind) {
    && (kind.IntKind? ==> kind.bits in {32, 64})
    && (kind.SliceKind? && kind.elem.IntElem? ==> kind.elem.bits in {32, 64})
  }

  /** A Go variable of the kind holds the value. */
  predicate Fits(kind: Kind, v: Held) {
    match kind
    case StringKind => v.Str?
    case IntKind(_) => v.Int?
    case BoolKind => v.Bool?
    case SliceKind(elem) => (match elem case IntElem(_) => v.Ints? case StringElem => v.Strs? case OtherElem => v.Opaque?)
    case OtherKind => v.Opaque?
  }

  function FieldName(fd: Field): string {
    Split(fd.jsonTag)[0]
  }

  // ----- lists -----

  /** The numbers among the pieces, in order. When every piece must be a number, reading stops at the
      first that is none and says so. */
  function ReadInts(pieces: seq<string>, bits: nat, must: bool): (seq<int>, bool)
    requires bits in {32, 64}
  {
    if pieces == [] then ([], true) else
      var n := ParseInt(Trim(pieces[0], SPACE), bits);
      if n.None? && must then ([], false) else
        var (ns, ok) := ReadInts(pieces[1..], bits, must);
        (if n.None? then ns else [n.value] + ns, ok)
  }

  function TrimAll(pieces: seq<string>): seq<string> {
    seq(|pieces|, i requires 0 <= i < |pieces| => Trim(pieces[i], SPACE))
  }

  // ----- one field -----

  function Skipped(name: string, was: Held, error: FillError): Outcome {
    Outcome(was, if MustExist(name) then Some(error) else None)
  }

  function SliceOutcome(elem: Elem, name: string, text: string, was: Held): Outcome
    requires WidthOk(SliceKind(elem)) && Fits(SliceKind(elem), was)
  {
    var trimmed := Trim(text, BRACKETS);
    if trimmed == "" then Outcome(was, None) else
      match elem
      case IntElem(bits) =>
        var (ns, ok) := ReadInts(Split(trimmed), bits, MustExist(name));
        Outcome(Ints(was.ns + ns), if ok then None else Some(BadText))
      case StringElem => Outcome(Strs(was.ss + TrimAll(Split(trimmed))), None)
      case OtherElem => Outcome(was, Some(BadSlice))
  }

  function TextOutcome(p: Params, fd: Field, name: string, text: string, was: Held): Outcome
    requires WidthOk(fd.kind) && Fits(fd.kind, was)
  {
    match fd.kind
    case StringKind => if p.validUtf8(text) then Outcome(Str(text), None) else Skipped(name, was, BadText)
    case IntKind(bits) =>
      var n := ParseInt(text, bits);
      if n.Some? then Outcome(Int(n.value), None) else Skipped(name, was, BadText)
    case BoolKind =>
      var b := ParseBool(text);
      if b.Some? then Outcome(Bool(b.value), None) else Skipped(name, was, BadText)
    case SliceKind(elem) => SliceOutcome(elem, name, text, was)
    case OtherKind => Outcome(was, Some(BadKind))
  }

  /** What becomes of a field that held `was`. */
  function FieldOutcome(p: Params, fd: Field, was: Held): Outcome
    requires WidthOk(fd.kind) && Fits(fd.kind, was)
  {
    var name := FieldName(fd);
    if !fd.settable then Outcome(was, None)
    else if fd.jsonTag == "" then Outcome(was, Some(EmptyTag))
    else if name == "" then Outcome(was, Some(EmptyName))
    else if name == "request_id" then
      if fd.kind.StringKind? then
        Outcome(Str(if name in p.kv && p.kv[name] != "" then p.kv[name] else p.autoId), None)
      else Outcome(was, Some(IdNotString))
    else if name !in p.kv then Skipped(name, was, Missing)
    else TextOutcome(p, fd, name, p.kv[name], was)
  }

  predicate Typed(fds: seq<Field>, values: seq<Held>) {
    |values| == |fds| && forall k :: 0 <= k < |fds| ==> WidthOk(fds[k].kind) && Fits(fds[k].kind, values[k])
  }

  /** What filling leaves behind: every field up to `stop` has its outcome, those behind it are
      untouched; the field `stop`, if there is one, has failed, and no field before it. */
  predicate Filled(p: Params, fds: seq<Field>, was: seq<Held>, now: seq<Held>, stop: nat, error: Option<FillError>)
    requires Typed(fds, was)
  {
    && stop <= |fds| == |now| && (error.None? <==> stop == |fds|)
    && (forall k :: 0 <= k < stop ==> FieldOutcome(p, fds[k], was[k]) == Outcome(now[k], None))
    && (stop < |fds| ==> FieldOutcome(p, fds[stop], was[stop]) == Outcome(now[stop], error))
    && (forall k :: stop < k < |fds| ==> now[k] == was[k])
  }

  // ----- what a field is left as -----

  /** The texts of a list of strings: what stands between the commas, without the spaces around it. */
  predicate LeftStrings(text: string, was: seq<string>, now: Held) {
    var inner := Trim(text, {'[', ' ', ']'});
    if inner == "" then now == Strs(was)
    else
      && now.Strs? && |now.ss| == |was| + |Split(inner)| && was <= now.ss
      && forall i :: 0 <= i < |Split(inner)| ==> now.ss[|was| + i] == Trim(Split(inner)[i], {' '})
  }

  /** What a field that was reached holds afterwards, said of the text it was given. */
  ghost predicate LeftAs(p: Params, fd: Field, was: Held, now: Held)
    requires Fits(fd.kind, was)
  {
    var name := FieldName(fd);
    if !fd.settable || fd.jsonTag == "" || name == "" then now == was
    else if name == "request_id" then
      now == if !fd.kind.StringKind? then was
             else if "request_id" in p.kv && p.kv["request_id"] != "" then Str(p.kv["request_id"])
             else Str(p.autoId)
    else if name !in p.kv then now == was
    else
      var text := p.kv[name];
      match fd.kind
      case StringKind => now == if p.validUtf8(text) then Str(text) else was
      case IntKind(bits) =>
        && (forall n :: Numeral(text, n) && InWidth(n, bits) ==> now == Int(n))
        && ((forall n :: Numeral(text, n) ==> !InWidth(n, bits)) ==> now == was)
      case BoolKind =>
        now == if text in {"1", "t", "T", "TRUE", "true", "True"} then Bool(true)
               else if text in {"0", "f", "F", "FALSE", "false", "False"} then Bool(false)
               else was
      case SliceKind(elem) =>
        (match elem
         case IntElem(_) => now.Ints? && was.ns <= now.ns
         case StringElem => LeftStrings(text, was.ss, now)
         case OtherElem => now == was)
      case OtherKind => now == was
  }

  lemma NumberLeft(text: string, bits: nat, was: Held, now: Held)
    requires bits in {32, 64}
    requires now == if ParseInt(text, bits).Some? then Int(ParseInt(text, bits).value) else was
    ensures forall n :: Numeral(text, n) && InWidth(n, bits) ==> now == Int(n)
    ensures (forall n :: Numeral(text, n) ==> !InWidth(n, bits)) ==> now == was
  {
    hide ParseInt, Numeral, InWidth;
    forall n ensures ParseInt(text, bits) == Some(n) <==> Numeral(text, n) && InWidth(n, bits) {
      ParseIntExact(text, n, bits);
    }
    if ParseInt(text, bits).Some? {
      assert Numeral(text, ParseInt(text, bits).value);
    }
  }

  lemma OutcomeIsLeft(p: Params, fd: Field, was: Held)
    requires WidthOk(fd.kind) && Fits(fd.kind, was)
    ensures LeftAs(p, fd, was, FieldOutcome(p, fd, was).value)
  {
    hide ParseInt, Numeral, InWidth, FieldName, Trim, Split, ReadInts;
    var name := FieldName(fd);
    if fd.kind.IntKind? && name in p.kv && name != "request_id" && fd.settable && fd.jsonTag != "" && name != "" {
      NumberLeft(p.kv[name], fd.kind.bits, was, FieldOutcome(p, fd, was).value);
    }
  }

  // ----- the filler -----

  class Message {
    const fds: seq<Field>
    var values: seq<Held>

    constructor (fds: seq<Field>, values: seq<Held>)
      requires Typed(fds, values)
      ensures this.fds == fds && this.values == values
    {
      this.fds, this.values := fds, values;
    }

    /** Every field gets its own outcome, up to the first that fails; of a list that fails the
        numbers before the bad piece have been appended, and later fields are untouched. */
    method Fill(p: Params) returns (error: Option<FillError>)
      requires Typed(fds, values)
      modifies this
      ensures |values| == |fds|
      ensures exists stop: nat ::
                && Filled(p, fds, old(values), values, stop, error)
                && forall k :: 0 <= k <= stop && k < |fds| ==> LeftAs(p, fds[k], old(values)[k], values[k])
    {
      hide FieldOutcome, LeftAs;
      for idx := 0 to |fds|
        invariant |values| == |fds| && forall k :: idx <= k < |fds| ==> values[k] == old(values)[k]
        invariant forall k :: 0 <= k < idx ==> FieldOutcome(p, fds[k], old(values)[k]) == Outcome(values[k], None)
        invariant forall k :: 0 <= k < idx ==> LeftAs(p, fds[k], old(values)[k], values[k])
      {
        OutcomeIsLeft(p, fds[idx], values[idx]);
        var value, e := FillField(p, fds[idx], values[idx]);
        values := values[idx := value];
        if e.Some? {
          assert Filled(p, fds, old(values), values, idx, e);
          return e;
        }
      }
      assert Filled(p, fds, old(values), values, |fds|, None);
      return None;
    }
  }

  method FillField(p: Params, fd: Field, was: Held) returns (value: Held, error: Option<FillError>)
    requires WidthOk(fd.kind) && Fits(fd.kind, was)
    ensures Outcome(value, error) == FieldOutcome(p, fd, was)
  {
    value, error := was, None;
    if !fd.settable {
      return;
    }
    if fd.jsonTag == "" {
      return was, Some(EmptyTag);
    }
    var name := Split(fd.jsonTag)[0];
    if name == "" {
      return was, Some(EmptyName);
    }
    if name == "request_id" {
      if fd.kind.StringKind? {
        value := Str(if name in p.kv && p.kv[name] != "" then p.kv[name] else p.autoId);
      } else {
        error := Some(IdNotString);
      }
      return;
    }
    if name !in p.kv {
      return was, if MustExist(name) then Some(Missing) else None;
    }
    var param := p.kv[name];
    error := if MustExist(name) then Some(BadText) else None;
    match fd.kind
    case StringKind =>
      if p.validUtf8(param) {
        value, error := Str(param), None;
      }
    case IntKind(bits) =>
      var n := ParseInt(param, bits);
      if n.Some? {
        value, error := Int(n.value), None;
      }
    case BoolKind =>
      var b := ParseBool(param);
      if b.Some? {
        value, error := Bool(b.value), None;
      }
    case SliceKind(elem) => value, error := FillSlice(elem, name, param, was);
    case OtherKind => error := Some(BadKind);
  }

  method FillSlice(elem: Elem, name: string, param: string, was: Held) returns (value: Held, error: Option<FillError>)
    requires WidthOk(SliceKind(elem)) && Fits(SliceKind(elem), was)
    ensures Outcome(value, error) == SliceOutcome(elem, name, param, was)
  {
    value, error := was, None;
    var trimmed := Trim(param, BRACKETS);
    if trimmed == "" {
      return;
    }
    var pieces := Split(trimmed);
    match elem
    case IntElem(bits) =>
      var ns, ok := AppendInts(pieces, bits, MustExist(name), was.ns);
      value, error := Ints(ns), if ok then None else Some(BadText);
    case StringElem =>
      var ss := AppendStrings(pieces, was.ss);
      value := Strs(ss);
    case OtherElem => error := Some(BadSlice);
  }

  method AppendInts(pieces: seq<string>, bits: nat, must: bool, was: seq<int>) returns (ns: seq<int>, ok: bool)
    requires bits in {32, 64}
    ensures (ns, ok) == (was + ReadInts(pieces, bits, must).0, ReadInts(pieces, bits, must).1)
  {
    hide ParseInt, Trim;
    ns, ok := was, true;
    ghost var all := ReadInts(pieces, bits, must);
    assert pieces[0..] == pieces;
    for i := 0 to |pieces|
      invariant ns + ReadInts(pieces[i..], bits, must).0 == was + all.0
      invariant ReadInts(pieces[i..], bits, must).1 == all.1
    {
      assert pieces[i..][0] == pieces[i] && pieces[i..][1..] == pieces[i + 1..];
      var val := ParseInt(Trim(pieces[i], SPACE), bits);
      ghost var more := ReadInts(pieces[i + 1..], bits, must).0;
      if val.Some? {
        assert ns + ([val.value] + more) == (ns + [val.value]) + more;
        ns := ns + [val.value];
      } else if must {
        assert ns + [] == ns;
        return ns, false;
      }
    }
    assert ns + [] == ns;
  }

  method AppendStrings(pieces: seq<string>, was: seq<string>) returns (ss: seq<string>)
    ensures ss == was + TrimAll(pieces)
  {
    ss := was;
    for i := 0 to |pieces|
      invariant |ss| == |was| + i && ss[..|was|] == was
      invariant forall k :: 0 <= k < i ==> ss[|was| + k] == Trim(pieces[k], SPACE)
    {
      ss := ss + [Trim(pieces[i], SPACE)];
    }
  }
}
