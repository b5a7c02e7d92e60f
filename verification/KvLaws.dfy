/** What filling a request message promises: lists are read as they were printed, and exactly when the
    text of one parameter affects other fields (`GateWay/HTTPMessage/kvmap2pb.go`). */
module KvLaws {
  import opened Decimal
  import opened KvMap
  import opened KvText
  import opened Results

  // ----- lists -----

  /** The places of the pieces that are numbers of the width, in order. */
  function NumbersAt(pieces: seq<string>, bits: nat, i: nat): seq<nat>
    requires bits in {32, 64}
    decreases |pieces| - i
  {
    if i >= |pieces| then []
    else if ParseInt(Trim(pieces[i], SPACE), bits).Some? then [i] + NumbersAt(pieces, bits, i + 1)
    else NumbersAt(pieces, bits, i + 1)
  }

  lemma {:induction false} NumbersOnceInOrder(pieces: seq<string>, bits: nat, i: nat)
    requires bits in {32, 64}
    ensures var at := NumbersAt(pieces, bits, i);
            && (forall k :: k in at <==> i <= k < |pieces| && ParseInt(Trim(pieces[k], SPACE), bits).Some?)
            && (forall x, y :: 0 <= x < y < |at| ==> at[x] < at[y])
    decreases |pieces| - i
  {
    hide ParseInt, Trim;
    if i < |pieces| {
      NumbersOnceInOrder(pieces, bits, i + 1);
      var at, rest := NumbersAt(pieces, bits, i), NumbersAt(pieces, bits, i + 1);
      assert forall x :: 0 <= x < |rest| ==> rest[x] in rest;
      assert forall k :: k in at <==> k in rest || (k == i && at != rest);
    }
  }

  predicate ReadAt(pieces: seq<string>, bits: nat, ns: seq<int>, at: seq<nat>)
    requires bits in {32, 64}
  {
    && |ns| == |at|
    && forall x :: 0 <= x < |at| ==> at[x] < |pieces| && ParseInt(Trim(pieces[at[x]], SPACE), bits) == Some(ns[x])
  }

  lemma ReadAtCons(pieces: seq<string>, bits: nat, i: nat, n: int, ns: seq<int>, at: seq<nat>)
    requires bits in {32, 64} && i < |pieces| && ParseInt(Trim(pieces[i], SPACE), bits) == Some(n)
    requires ReadAt(pieces, bits, ns, at)
    ensures ReadAt(pieces, bits, [n] + ns, [i] + at)
  {
    hide ParseInt, Trim;
  }

  /** For any pieces, the numbers read from a field that need not exist are those of the pieces that
      are numbers, in order, each once. */
  lemma {:induction false} ReadsTheNumbers(pieces: seq<string>, bits: nat, i: nat)
    requires bits in {32, 64} && i <= |pieces|
    ensures var (ns, ok) := ReadInts(pieces[i..], bits, false);
            ok && ReadAt(pieces, bits, ns, NumbersAt(pieces, bits, i))
    decreases |pieces| - i
  {
    hide ParseInt, Trim;
    if i < |pieces| {
      hide ReadAt;
      assert pieces[i..][0] == pieces[i] && pieces[i..][1..] == pieces[i + 1..];
      ReadsTheNumbers(pieces, bits, i + 1);
      var n := ParseInt(Trim(pieces[i], SPACE), bits);
      if n.Some? {
        ReadAtCons(pieces, bits, i, n.value, ReadInts(pieces[i + 1..], bits, false).0, NumbersAt(pieces, bits, i + 1));
      }
    }
  }

  /** From a field that must exist the numbers are read up to the first piece that is none. */
  lemma {:induction false} MustReadAll(pieces: seq<string>, bits: nat)
    requires bits in {32, 64}
    ensures var (ns, ok) := ReadInts(pieces, bits, true);
            && |ns| <= |pieces| && (ok <==> |ns| == |pieces|)
            && (forall x :: 0 <= x < |ns| ==> ParseInt(Trim(pieces[x], SPACE), bits) == Some(ns[x]))
            && (!ok ==> ParseInt(Trim(pieces[|ns|], SPACE), bits).None?)
  {
    hide ParseInt, Trim;
    if pieces != [] {
      var rest := pieces[1..];
      MustReadAll(rest, bits);
      var n := ParseInt(Trim(pieces[0], SPACE), bits);
      if n.Some? {
        var ns, more := ReadInts(pieces, bits, true).0, ReadInts(rest, bits, true).0;
        assert ns == [n.value] + more;
        forall x | 1 <= x < |ns| ensures ParseInt(Trim(pieces[x], SPACE), bits) == Some(ns[x]) {
          assert pieces[x] == rest[x - 1] && ns[x] == more[x - 1];
        }
      }
    }
  }

  /** The pieces of a list's text. */
  function Pieces(text: string): seq<string> {
    var trimmed := Trim(text, BRACKETS);
    if trimmed == "" then [] else Split(trimmed)
  }

  /** What any text does to a list of numbers. In a field that need not exist: the numbers among its
      pieces are appended, in order, and nothing fails. In one that must exist: the numbers up to the
      first piece that is none are appended, and it fails exactly when there is such a piece. */
  lemma ListFromText(name: string, bits: nat, text: string, was: seq<int>)
    requires bits in {32, 64}
    ensures var pieces, o := Pieces(text), SliceOutcome(IntElem(bits), name, text, Ints(was));
            && o.value.Ints? && was <= o.value.ns
            && var ns := o.value.ns[|was|..];
            if !MustExist(name) then o.error.None? && ReadAt(pieces, bits, ns, NumbersAt(pieces, bits, 0))
            else
              && |ns| <= |pieces| && (o.error.None? <==> |ns| == |pieces|)
              && (forall x :: 0 <= x < |ns| ==> ParseInt(Trim(pieces[x], SPACE), bits) == Some(ns[x]))
              && (o.error.Some? ==> ParseInt(Trim(pieces[|ns|], SPACE), bits).None?)
  {
    hide Trim, Split, ParseInt, ReadInts, MustExist;
    var pieces, o := Pieces(text), SliceOutcome(IntElem(bits), name, text, Ints(was));
    MustReadAll(pieces, bits);
    ReadsTheNumbers(pieces, bits, 0);
    assert pieces[0..] == pieces;
    if pieces == [] {
      assert o == Outcome(Ints(was), None) && was[|was|..] == [];
    } else {
      var (ns, ok) := ReadInts(pieces, bits, MustExist(name));
      assert (was + ns)[|was|..] == ns;
    }
  }

  /** A printed list: between two numbers a comma with any spaces around it, `lead` in front. */
  function Printed(lead: string, ns: seq<int>, gaps: seq<(string, string)>): string
    requires ns != [] && |gaps| == |ns| - 1
    decreases |ns|
  {
    lead + Itoa(ns[0]) + if |ns| == 1 then "" else gaps[0].0 + "," + Printed(gaps[0].1, ns[1..], gaps[1..])
  }

  predicate Gaps(gaps: seq<(string, string)>) {
    forall i :: 0 <= i < |gaps| ==> AllIn(gaps[i].0, SPACE) && AllIn(gaps[i].1, SPACE)
  }

  lemma ItoaEnds(n: int)
    ensures var s := Itoa(n);
            && s != "" && s[0] !in BRACKETS && s[|s| - 1] !in BRACKETS
            && forall i :: 0 <= i < |s| ==> s[i] != ','
  {
    var d := Digits(if n < 0 then -n else n);
    assert IsDigit(d[0]) && IsDigit(d[|d| - 1]);
    assert forall i :: 0 <= i < |d| ==> IsDigit(d[i]);
  }

  lemma TrimNumber(a: string, n: int, b: string)
    requires AllIn(a, SPACE) && AllIn(b, SPACE)
    ensures Trim(a + Itoa(n) + b, SPACE) == Itoa(n) && ',' !in a + Itoa(n) + b
  {
    hide Itoa, Trim;
    ItoaEnds(n);
    TrimAround(a, Itoa(n), b, SPACE);
  }

  lemma {:induction false} ReadPrinted(lead: string, ns: seq<int>, gaps: seq<(string, string)>, bits: nat, must: bool)
    requires bits in {32, 64} && ns != [] && |gaps| == |ns| - 1 && Gaps(gaps) && AllIn(lead, SPACE)
    requires forall i :: 0 <= i < |ns| ==> FitsBits(ns[i], bits)
    ensures ReadInts(Split(Printed(lead, ns, gaps)), bits, must) == (ns, true)
    decreases |ns|
  {
    hide Itoa, Trim, ParseInt, Split;
    ParseItoa(ns[0], bits);
    if |ns| == 1 {
      assert lead + Itoa(ns[0]) + "" == lead + Itoa(ns[0]) == Printed(lead, ns, gaps);
      TrimNumber(lead, ns[0], "");
      SplitFirst(lead + Itoa(ns[0]), "");
      assert [lead + Itoa(ns[0])][1..] == [];
      assert ReadInts([], bits, must) == ([], true);
      assert ns == [ns[0]] + [];
    } else {
      var piece, rest := lead + Itoa(ns[0]) + gaps[0].0, Printed(gaps[0].1, ns[1..], gaps[1..]);
      assert Printed(lead, ns, gaps) == piece + "," + rest;
      TrimNumber(lead, ns[0], gaps[0].0);
      SplitFirst(piece, rest);
      ReadPrinted(gaps[0].1, ns[1..], gaps[1..], bits, must);
      assert ([piece] + Split(rest))[1..] == Split(rest);
      assert ns == [ns[0]] + ns[1..];
    }
  }

  lemma {:induction false} PrintedEnds(lead: string, ns: seq<int>, gaps: seq<(string, string)>)
    requires ns != [] && |gaps| == |ns| - 1
    ensures var s := Printed(lead, ns, gaps);
            s != "" && s[|s| - 1] !in BRACKETS && (lead == "" ==> s[0] !in BRACKETS)
    decreases |ns|
  {
    hide Itoa;
    ItoaEnds(ns[0]);
    if |ns| > 1 {
      PrintedEnds(gaps[0].1, ns[1..], gaps[1..]);
    }
  }

  /** Reading a list undoes printing it: whatever the spaces and the brackets around it, the numbers
      are appended, all of them, in order. */
  lemma ListTrip(name: string, bits: nat, ns: seq<int>, gaps: seq<(string, string)>, opening: string, close: string,
                 was: seq<int>)
    requires bits in {32, 64} && AllIn(opening, BRACKETS) && AllIn(close, BRACKETS)
    requires forall i :: 0 <= i < |ns| ==> FitsBits(ns[i], bits)
    requires ns != [] ==> |gaps| == |ns| - 1 && Gaps(gaps)
    ensures var text := if ns == [] then opening + close else opening + Printed("", ns, gaps) + close;
            SliceOutcome(IntElem(bits), name, text, Ints(was)) == Outcome(Ints(was + ns), None)
  {
    hide Trim, Split, ReadInts, Printed;
    if ns == [] {
      TrimNothing(opening + close, BRACKETS);
      assert was + ns == was;
    } else {
      PrintedEnds("", ns, gaps);
      TrimAround(opening, Printed("", ns, gaps), close, BRACKETS);
      ReadPrinted("", ns, gaps, bits, MustExist(name));
    }
  }

  lemma OutcomeIgnores(p: Params, key: string, text: string, fd: Field, was: Held)
    requires WidthOk(fd.kind) && Fits(fd.kind, was) && FieldName(fd) != key
    ensures FieldOutcome(p, fd, was) == FieldOutcome(p.(kv := p.kv[key := text]), fd, was)
  {
    hide Trim, Split, ReadInts;
  }

  /** Behind the one stop and not behind the other. */
  predicate Between(stop: nat, j: nat, stop': nat) {
    stop < j <= stop' || stop' < j <= stop
  }

  function Lesser(a: nat, b: nat): nat {
    if a < b then a else b
  }

  /** The text of one parameter and the fields of other names. Two runs that differ in that text, from
      the same message: where they do not stop at the same field, the earlier stop is at a field of
      that name. A field of another name ends up different exactly when it lies behind the one stop but
      not behind the other, and its own outcome changes it; so never when both runs succeed. */
  lemma OtherFieldsUnmoved(p: Params, key: string, text: string, fds: seq<Field>, was: seq<Held>,
                           now: seq<Held>, stop: nat, error: Option<FillError>,
                           now': seq<Held>, stop': nat, error': Option<FillError>)
    requires Typed(fds, was) && Filled(p, fds, was, now, stop, error)
    requires Filled(p.(kv := p.kv[key := text]), fds, was, now', stop', error')
    ensures stop != stop' ==> FieldName(fds[Lesser(stop, stop')]) == key
    ensures forall j :: 0 <= j < |fds| && FieldName(fds[j]) != key ==>
              (now[j] != now'[j] <==>
                 Between(stop, j, stop') && FieldOutcome(p, fds[j], was[j]).value != was[j])
    ensures error.None? && error'.None? ==>
              forall j :: 0 <= j < |fds| && FieldName(fds[j]) != key ==> now[j] == now'[j]
  {
    hide FieldOutcome, FieldName;
    forall j | 0 <= j < |fds| && FieldName(fds[j]) != key
      ensures FieldOutcome(p, fds[j], was[j]) == FieldOutcome(p.(kv := p.kv[key := text]), fds[j], was[j])
    {
      OutcomeIgnores(p, key, text, fds[j], was[j]);
    }
  }

  // ----- which texts reach other fields -----

  /** Some piece of the list is no number of the width. */
  predicate Bad(text: string, bits: nat)
    requires bits in {32, 64}
  {
    exists x :: 0 <= x < |Pieces(text)| && ParseInt(Trim(Pieces(text)[x], SPACE), bits).None?
  }

  /** The text does not fit the field's kind. */
  predicate Unfit(p: Params, kind: Kind, name: string, text: string)
    requires WidthOk(kind)
  {
    match kind
    case StringKind => MustExist(name) && !p.validUtf8(text)
    case IntKind(bits) => MustExist(name) && ParseInt(text, bits).None?
    case BoolKind => MustExist(name) && ParseBool(text).None?
    case SliceKind(elem) =>
      (match elem
       case IntElem(bits) => MustExist(name) && Bad(text, bits)
       case StringElem => false
       case OtherElem => Trim(text, BRACKETS) != "")
    case OtherKind => true
  }

  /** The field fails; what it holds has no part in it. */
  predicate Fails(p: Params, fd: Field)
    requires WidthOk(fd.kind)
  {
    fd.settable &&
    var name := FieldName(fd);
    if fd.jsonTag == "" || name == "" then true
    else if name == "request_id" then !fd.kind.StringKind?
    else if name !in p.kv then MustExist(name)
    else Unfit(p, fd.kind, name, p.kv[name])
  }

  lemma ListFails(name: string, bits: nat, text: string, was: seq<int>)
    requires bits in {32, 64}
    ensures SliceOutcome(IntElem(bits), name, text, Ints(was)).error.Some? <==> MustExist(name) && Bad(text, bits)
  {
    hide Trim, Split, ParseInt, ReadInts, MustExist, SliceOutcome, Pieces;
    ListFromText(name, bits, text, was);
    var pieces, o := Pieces(text), SliceOutcome(IntElem(bits), name, text, Ints(was));
    if MustExist(name) && o.error.None? {
      assert |o.value.ns[|was|..]| == |pieces|;
    }
  }

  lemma FailsExactly(p: Params, fd: Field, was: Held)
    requires WidthOk(fd.kind) && Fits(fd.kind, was)
    ensures FieldOutcome(p, fd, was).error.Some? <==> Fails(p, fd)
  {
    hide Trim, Split, ParseInt, ParseBool, ReadInts, MustExist, Bad;
    var name := FieldName(fd);
    if fd.kind.SliceKind? && fd.kind.elem.IntElem? && name in p.kv {
      ListFails(name, fd.kind.elem.bits, p.kv[name], was.ns);
      hide SliceOutcome;
    }
  }

  lemma StopsAtFirst(p: Params, fds: seq<Field>, was: seq<Held>, now: seq<Held>, stop: nat, error: Option<FillError>)
    requires Typed(fds, was) && Filled(p, fds, was, now, stop, error)
    ensures forall j :: 0 <= j < stop ==> !Fails(p, fds[j])
    ensures stop < |fds| ==> Fails(p, fds[stop])
  {
    hide FieldOutcome, Fails;
    forall j | 0 <= j < |fds| ensures FieldOutcome(p, fds[j], was[j]).error.Some? <==> Fails(p, fds[j]) {
      FailsExactly(p, fds[j], was[j]);
    }
  }

  /** A list of numbers that has its name to itself and is given in the request. */
  predicate OwnList(p: Params, fds: seq<Field>, k: nat, key: string) {
    && k < |fds| && fds[k].settable && fds[k].kind.SliceKind? && fds[k].kind.elem.IntElem? && WidthOk(fds[k].kind)
    && fds[k].jsonTag != "" && FieldName(fds[k]) == key && key != "" && key != "request_id" && key in p.kv
    && forall j :: 0 <= j < |fds| && j != k ==> FieldName(fds[j]) != key
  }

  /** The two texts tell the list apart: it must exist, and exactly one of them has a bad piece. */
  predicate TextsDiffer(fds: seq<Field>, k: nat, key: string, text: string, text': string)
    requires k < |fds| && fds[k].kind.SliceKind? && fds[k].kind.elem.IntElem? && WidthOk(fds[k].kind)
  {
    MustExist(key) && (Bad(text, fds[k].kind.elem.bits) <==> !Bad(text', fds[k].kind.elem.bits))
  }

  predicate NoneFails(p: Params, fds: seq<Field>, lo: nat, hi: nat)
    requires hi <= |fds| && forall j :: 0 <= j < |fds| ==> WidthOk(fds[j].kind)
  {
    forall j :: lo <= j < hi ==> !Fails(p, fds[j])
  }

  lemma FailsIgnores(p: Params, key: string, text: string, fd: Field)
    requires WidthOk(fd.kind) && FieldName(fd) != key
    ensures Fails(p.(kv := p.kv[key := text]), fd) <==> Fails(p, fd)
  {
    hide Unfit, FieldName;
    UnfitIgnores(p, p.(kv := p.kv[key := text]), fd.kind, FieldName(fd));
  }

  lemma UnfitIgnores(p: Params, p': Params, kind: Kind, name: string)
    requires WidthOk(kind) && p.validUtf8 == p'.validUtf8
    ensures forall text :: Unfit(p, kind, name, text) <==> Unfit(p', kind, name, text)
  {
    hide Bad, ParseInt, ParseBool, Trim, MustExist;
  }

  lemma ListFailsHere(p: Params, fds: seq<Field>, k: nat, key: string)
    requires OwnList(p, fds, k, key)
    ensures Fails(p, fds[k]) <==> MustExist(key) && Bad(p.kv[key], fds[k].kind.elem.bits)
  {
    hide Bad, FieldName, MustExist;
  }

  /** Exactly when changing the text of a list makes filling stop elsewhere: no field before it fails, it
      must exist, and one of the two texts has a bad piece and the other has not. */
  lemma StopsDiffer(p: Params, key: string, text: string, fds: seq<Field>, k: nat, was: seq<Held>,
                    now: seq<Held>, stop: nat, error: Option<FillError>,
                    now': seq<Held>, stop': nat, error': Option<FillError>)
    requires Typed(fds, was) && OwnList(p, fds, k, key) && Filled(p, fds, was, now, stop, error)
    requires Filled(p.(kv := p.kv[key := text]), fds, was, now', stop', error')
    ensures stop != stop' <==> NoneFails(p, fds, 0, k) && TextsDiffer(fds, k, key, p.kv[key], text)
    ensures stop != stop' ==> Lesser(stop, stop') == k
    ensures stop != stop' ==> forall j :: k < j < |fds| ==> (Between(stop, j, stop') <==> NoneFails(p, fds, k + 1, j))
  {
    hide Filled, Fails, FieldName, MustExist, Bad;
    var p' := p.(kv := p.kv[key := text]);
    StopsAtFirst(p, fds, was, now, stop, error);
    StopsAtFirst(p', fds, was, now', stop', error');
    StopInRange(p, fds, was, now, stop, error);
    StopInRange(p', fds, was, now', stop', error');
    ListFailsHere(p, fds, k, key);
    ListFailsHere(p', fds, k, key);
    forall j | 0 <= j < |fds| && j != k ensures Fails(p', fds[j]) <==> Fails(p, fds[j]) {
      FailsIgnores(p, key, text, fds[j]);
    }
  }

  lemma StopInRange(p: Params, fds: seq<Field>, was: seq<Held>, now: seq<Held>, stop: nat, error: Option<FillError>)
    requires Typed(fds, was) && Filled(p, fds, was, now, stop, error)
    ensures stop <= |fds| == |now| && (error.None? <==> stop == |fds|)
  {}

  /** Some later field, with none failing in between, would be changed by the request. */
  predicate LaterChanges(p: Params, fds: seq<Field>, was: seq<Held>, k: nat)
    requires Typed(fds, was)
  {
    exists j :: k < j < |fds| && NoneFails(p, fds, k + 1, j) && FieldOutcome(p, fds[j], was[j]).value != was[j]
  }

  /** Exactly when the content of a list affects another field: changing its text from `p.kv[key]` to
      `text` changes some other field if and only if no field before the list fails, the list must
      exist, one of the texts has a bad piece and the other has not, and there is a later field that the
      request reaches and changes. */
  lemma ListReachesOthers(p: Params, key: string, text: string, fds: seq<Field>, k: nat, was: seq<Held>,
                          now: seq<Held>, stop: nat, error: Option<FillError>,
                          now': seq<Held>, stop': nat, error': Option<FillError>)
    requires Typed(fds, was) && OwnList(p, fds, k, key) && Filled(p, fds, was, now, stop, error)
    requires Filled(p.(kv := p.kv[key := text]), fds, was, now', stop', error')
    ensures |now| == |now'| == |fds|
    ensures (exists j :: 0 <= j < |fds| && j != k && now[j] != now'[j]) <==>
            NoneFails(p, fds, 0, k) && TextsDiffer(fds, k, key, p.kv[key], text) && LaterChanges(p, fds, was, k)
  {
    hide Fails, FieldOutcome, FieldName, Filled, MustExist, Bad, NoneFails, TextsDiffer;
    StopInRange(p, fds, was, now, stop, error);
    StopInRange(p.(kv := p.kv[key := text]), fds, was, now', stop', error');
    OtherFieldsUnmoved(p, key, text, fds, was, now, stop, error, now', stop', error');
    StopsDiffer(p, key, text, fds, k, was, now, stop, error, now', stop', error');
    if LaterChanges(p, fds, was, k) && stop != stop' {
      var j :| k < j < |fds| && NoneFails(p, fds, k + 1, j) && FieldOutcome(p, fds[j], was[j]).value != was[j];
      assert now[j] != now'[j];
    }
    if j :| 0 <= j < |fds| && j != k && now[j] != now'[j] {
      assert k < j && NoneFails(p, fds, k + 1, j);
    }
  }

  /** So the content of a list that need not exist affects no other field, nor whether and where filling
      fails. */
  lemma OptionalListUnmoved(p: Params, key: string, text: string, fds: seq<Field>, k: nat, was: seq<Held>,
                            now: seq<Held>, stop: nat, error: Option<FillError>,
                            now': seq<Held>, stop': nat, error': Option<FillError>)
    requires Typed(fds, was) && OwnList(p, fds, k, key) && !MustExist(key)
    requires Filled(p, fds, was, now, stop, error) && Filled(p.(kv := p.kv[key := text]), fds, was, now', stop', error')
    ensures stop == stop' && error == error' && |now| == |now'| == |fds|
    ensures forall j :: 0 <= j < |fds| && j != k ==> now[j] == now'[j]
  {
    hide Fails, FieldOutcome, FieldName, Filled, MustExist, Bad, NoneFails;
    ListReachesOthers(p, key, text, fds, k, was, now, stop, error, now', stop', error');
    StopsDiffer(p, key, text, fds, k, was, now, stop, error, now', stop', error');
    SameError(p, key, text, fds, k, was, now, stop, error, now', error');
  }

  lemma SameError(p: Params, key: string, text: string, fds: seq<Field>, k: nat, was: seq<Held>,
                  now: seq<Held>, stop: nat, error: Option<FillError>, now': seq<Held>, error': Option<FillError>)
    requires Typed(fds, was) && OwnList(p, fds, k, key) && !MustExist(key) && Filled(p, fds, was, now, stop, error)
    requires Filled(p.(kv := p.kv[key := text]), fds, was, now', stop, error')
    ensures error == error'
  {
    hide FieldName, FieldOutcome, Fails;
    StopsAtFirst(p, fds, was, now, stop, error);
    if stop < |fds| {
      ListFailsHere(p, fds, k, key);
      OutcomeIgnores(p, key, text, fds[stop], was[stop]);
    }
  }

  // ----- the request type of the gateway -----

  /** `AlgoCenterRequest` (`Common/GateWayProtos/AlgoCenter.pb.go`); its first three fields are not
      exported. */
  const ALGO_FIELDS := [
    Field(false, "", OtherKind), Field(false, "", IntKind(32)), Field(false, "", OtherKind),
    Field(true, "request_id,omitempty", StringKind),
    Field(true, "user_id,omitempty", IntKind(64)),
    Field(true, "exp_list,omitempty", SliceKind(IntElem(32))),
    Field(true, "ret_count,omitempty", IntKind(32)),
    Field(true, "ll_id,omitempty", IntKind(64)),
    Field(true, "res_type,omitempty", IntKind(32)),
    Field(true, "res_name,omitempty", StringKind),
    Field(true, "keyname_list,omitempty", SliceKind(StringElem))]

  lemma TagName(fd: Field, name: string)
    requires fd.jsonTag == name + "," + "omitempty" && ',' !in name
    ensures FieldName(fd) == name
  {
    SplitFirst(name, "omitempty");
  }

  lemma AlgoNames()
    ensures FieldName(ALGO_FIELDS[3]) == "request_id" && FieldName(ALGO_FIELDS[4]) == "user_id"
    ensures FieldName(ALGO_FIELDS[5]) == "exp_list" && FieldName(ALGO_FIELDS[6]) == "ret_count"
    ensures FieldName(ALGO_FIELDS[7]) == "ll_id" && FieldName(ALGO_FIELDS[8]) == "res_type"
    ensures FieldName(ALGO_FIELDS[9]) == "res_name" && FieldName(ALGO_FIELDS[10]) == "keyname_list"
    ensures forall j :: 0 <= j < 3 ==> FieldName(ALGO_FIELDS[j]) == ""
  {
    hide FieldName;
    FirstAlgoNames();
    LastAlgoNames();
    hide ALGO_FIELDS;
  }

  lemma FirstAlgoNames()
    ensures FieldName(ALGO_FIELDS[3]) == "request_id" && FieldName(ALGO_FIELDS[4]) == "user_id"
    ensures FieldName(ALGO_FIELDS[5]) == "exp_list" && FieldName(ALGO_FIELDS[6]) == "ret_count"
    ensures forall j :: 0 <= j < 3 ==> FieldName(ALGO_FIELDS[j]) == ""
  {
    hide FieldName;
    TagName(ALGO_FIELDS[3], "request_id");
    TagName(ALGO_FIELDS[4], "user_id");
    TagName(ALGO_FIELDS[5], "exp_list");
    TagName(ALGO_FIELDS[6], "ret_count");
    NoTag(ALGO_FIELDS[0]);
    NoTag(ALGO_FIELDS[1]);
    NoTag(ALGO_FIELDS[2]);
  }

  lemma LastAlgoNames()
    ensures FieldName(ALGO_FIELDS[7]) == "ll_id" && FieldName(ALGO_FIELDS[8]) == "res_type"
    ensures FieldName(ALGO_FIELDS[9]) == "res_name" && FieldName(ALGO_FIELDS[10]) == "keyname_list"
  {
    hide FieldName;
    TagName(ALGO_FIELDS[7], "ll_id");
    TagName(ALGO_FIELDS[8], "res_type");
    TagName(ALGO_FIELDS[9], "res_name");
    TagName(ALGO_FIELDS[10], "keyname_list");
  }

  lemma NoTag(fd: Field)
    requires fd.jsonTag == ""
    ensures FieldName(fd) == ""
  {}

  /** The request gives a number of the width under the name. */
  ghost predicate GivesNumber(p: Params, name: string, bits: nat) {
    name in p.kv && exists n :: Numeral(p.kv[name], n) && InWidth(n, bits)
  }

  /** `now` is the number given under the name, or `was` when none is. */
  ghost predicate NumberOf(p: Params, name: string, bits: nat, was: Held, now: Held) {
    && (name in p.kv ==> forall n :: Numeral(p.kv[name], n) && InWidth(n, bits) ==> now == Int(n))
    && (!GivesNumber(p, name, bits) ==> now == was)
  }

  lemma NumberGiven(p: Params, name: string, bits: nat)
    requires bits in {32, 64} && name in p.kv
    ensures ParseInt(p.kv[name], bits).Some? <==> GivesNumber(p, name, bits)
  {
    hide ParseInt, Numeral, InWidth;
    forall n ensures ParseInt(p.kv[name], bits) == Some(n) <==> Numeral(p.kv[name], n) && InWidth(n, bits) {
      ParseIntExact(p.kv[name], n, bits);
    }
    var n := ParseInt(p.kv[name], bits);
    assert n.Some? ==> Numeral(p.kv[name], n.value);
  }

  lemma NumberField(p: Params, fd: Field, name: string, bits: nat, was: Held)
    requires fd.settable && fd.jsonTag != "" && FieldName(fd) == name && name !in {"", "request_id"}
    requires fd.kind == IntKind(bits) && bits in {32, 64} && was.Int?
    ensures FieldOutcome(p, fd, was).error.Some? <==> MustExist(name) && !GivesNumber(p, name, bits)
    ensures NumberOf(p, name, bits, was, FieldOutcome(p, fd, was).value)
  {
    hide ParseInt, Numeral, InWidth, FieldName, MustExist;
    if name in p.kv {
      NumberGiven(p, name, bits);
      NumberLeft(p.kv[name], bits, was, FieldOutcome(p, fd, was).value);
    }
  }

  function IdGiven(p: Params): string {
    if "request_id" in p.kv && p.kv["request_id"] != "" then p.kv["request_id"] else p.autoId
  }

  lemma IdField(p: Params, fd: Field, was: Held)
    requires fd.settable && fd.jsonTag != "" && FieldName(fd) == "request_id" && fd.kind == StringKind && was.Str?
    ensures FieldOutcome(p, fd, was) == Outcome(Str(IdGiven(p)), None)
  {
    hide FieldName, MustExist;
    assert |"request_id"| == 10;
  }

  /** `now` is the text given under the name, or `was` when none that is valid is. */
  predicate TextOf(p: Params, name: string, was: Held, now: Held) {
    now == if name in p.kv && p.validUtf8(p.kv[name]) then Str(p.kv[name]) else was
  }

  predicate TextsOf(p: Params, name: string, was: Held, now: Held) {
    if name in p.kv then was.Strs? && LeftStrings(p.kv[name], was.ss, now) else now == was
  }

  lemma TextField(p: Params, fd: Field, name: string, was: Held)
    requires fd.settable && fd.jsonTag != "" && FieldName(fd) == name && name !in {"", "request_id"} && !MustExist(name)
    requires WidthOk(fd.kind) && Fits(fd.kind, was)
    ensures fd.kind == StringKind ==>
              FieldOutcome(p, fd, was).error.None? && TextOf(p, name, was, FieldOutcome(p, fd, was).value)
    ensures fd.kind == SliceKind(StringElem) ==>
              FieldOutcome(p, fd, was).error.None? && TextsOf(p, name, was, FieldOutcome(p, fd, was).value)
    ensures fd.kind == SliceKind(IntElem(32)) ==> FieldOutcome(p, fd, was).error.None?
  {
    hide ParseInt, ParseBool, FieldName, MustExist, Trim, Split, ReadInts, Bad, Numeral, InWidth;
    OutcomeIsLeft(p, fd, was);
    if name in p.kv && fd.kind == SliceKind(IntElem(32)) {
      ListFails(name, 32, p.kv[name], was.ns);
    }
  }

  lemma HiddenField(p: Params, fd: Field, was: Held)
    requires !fd.settable && WidthOk(fd.kind) && Fits(fd.kind, was)
    ensures FieldOutcome(p, fd, was).error.None?
  {}

  lemma NamesApart()
    ensures !MustExist("exp_list") && !MustExist("ret_count") && !MustExist("res_name") && !MustExist("keyname_list")
    ensures MustExist("user_id") && MustExist("ll_id") && MustExist("res_type")
    ensures "request_id" !in {"exp_list", "ret_count", "res_name", "keyname_list", "user_id", "ll_id", "res_type"}
  {
    assert |"exp_list"| == 8 && "exp_list"[0] == 'e' && "res_type"[0] == "res_name"[0] == 'r' && |"res_name"| == 8;
    assert "res_type"[4] == 't' && "res_name"[4] == 'n' && |"ret_count"| == 9 && |"keyname_list"| == 12;
    assert |"request_id"| == 10 && |"user_id"| == 7 && |"ll_id"| == 5 && |"res_type"| == 8;
  }

  /** What the request says its fields are. */
  ghost predicate AlgoFilled(p: Params, was: seq<Held>, now: seq<Held>) {
    && |was| == |now| == 11
    && now[3] == Str(IdGiven(p))
    && NumberOf(p, "user_id", 64, was[4], now[4]) && NumberOf(p, "ret_count", 32, was[6], now[6])
    && NumberOf(p, "ll_id", 64, was[7], now[7]) && NumberOf(p, "res_type", 32, was[8], now[8])
    && TextOf(p, "res_name", was[9], now[9]) && TextsOf(p, "keyname_list", was[10], now[10])
  }

  lemma AlgoShapes(was: seq<Held>)
    requires Typed(ALGO_FIELDS, was)
    ensures |ALGO_FIELDS| == |was| == 11
    ensures forall j :: 0 <= j < 3 ==> !ALGO_FIELDS[j].settable
    ensures forall j :: 3 <= j < 11 ==> ALGO_FIELDS[j].settable && ALGO_FIELDS[j].jsonTag != ""
    ensures forall j :: 0 <= j < 11 ==> WidthOk(ALGO_FIELDS[j].kind) && Fits(ALGO_FIELDS[j].kind, was[j])
    ensures ALGO_FIELDS[3].kind == ALGO_FIELDS[9].kind == StringKind && ALGO_FIELDS[10].kind == SliceKind(StringElem)
    ensures ALGO_FIELDS[4].kind == ALGO_FIELDS[7].kind == IntKind(64) && ALGO_FIELDS[5].kind == SliceKind(IntElem(32))
    ensures ALGO_FIELDS[6].kind == ALGO_FIELDS[8].kind == IntKind(32)
  {}

  /** The gateway's request type is filled if and only if the request gives a user identifier and an
      item identifier of 64 bits and a resource type of 32 bits, and then its fields are what the request
      says. */
  lemma AlgoFills(p: Params, was: seq<Held>, now: seq<Held>, stop: nat, error: Option<FillError>)
    requires Typed(ALGO_FIELDS, was) && Filled(p, ALGO_FIELDS, was, now, stop, error)
    ensures error.None? <==> GivesNumber(p, "user_id", 64) && GivesNumber(p, "ll_id", 64) && GivesNumber(p, "res_type", 32)
    ensures error.None? ==> AlgoFilled(p, was, now)
  {
    hide FieldOutcome, FieldName, GivesNumber, NumberOf, LeftStrings, MustExist, TextOf, TextsOf, IdGiven, WidthOk;
    AlgoNames();
    AlgoShapes(was);
    hide ALGO_FIELDS, Typed;
    NamesApart();
    HiddenField(p, ALGO_FIELDS[0], was[0]);
    HiddenField(p, ALGO_FIELDS[1], was[1]);
    HiddenField(p, ALGO_FIELDS[2], was[2]);
    IdField(p, ALGO_FIELDS[3], was[3]);
    NumberField(p, ALGO_FIELDS[4], "user_id", 64, was[4]);
    TextField(p, ALGO_FIELDS[5], "exp_list", was[5]);
    NumberField(p, ALGO_FIELDS[6], "ret_count", 32, was[6]);
    NumberField(p, ALGO_FIELDS[7], "ll_id", 64, was[7]);
    NumberField(p, ALGO_FIELDS[8], "res_type", 32, was[8]);
    TextField(p, ALGO_FIELDS[9], "res_name", was[9]);
    TextField(p, ALGO_FIELDS[10], "keyname_list", was[10]);
  }

  /** Its one list of numbers is such a list: whatever it holds, no other field is affected. */
  lemma ExpListUnmoved(p: Params, text: string, was: seq<Held>,
                       now: seq<Held>, stop: nat, error: Option<FillError>,
                       now': seq<Held>, stop': nat, error': Option<FillError>)
    requires Typed(ALGO_FIELDS, was) && "exp_list" in p.kv
    requires Filled(p, ALGO_FIELDS, was, now, stop, error)
    requires Filled(p.(kv := p.kv["exp_list" := text]), ALGO_FIELDS, was, now', stop', error')
    ensures stop == stop' && error == error' && |now| == |now'| == |ALGO_FIELDS|
    ensures forall j :: 0 <= j < |ALGO_FIELDS| && j != 5 ==> now[j] == now'[j]
  {
    hide FieldName, Filled, Typed;
    AlgoNames();
    assert |"exp_list"| == 8 && "exp_list"[0] == 'e' && "res_type"[0] == "res_name"[0] == 'r';
    assert OwnList(p, ALGO_FIELDS, 5, "exp_list");
    OptionalListUnmoved(p, "exp_list", text, ALGO_FIELDS, 5, was, now, stop, error, now', stop', error');
  }

  /** A bad piece in the list of a field that must exist does reach the others: filling stops there, and
      every later field is left as it was. */
  lemma BadListStops(p: Params, fds: seq<Field>, k: nat, was: seq<Held>, now: seq<Held>, stop: nat,
                     error: Option<FillError>)
    requires Typed(fds, was) && Filled(p, fds, was, now, stop, error)
    requires k < |fds| && fds[k].settable && fds[k].kind.SliceKind? && fds[k].kind.elem.IntElem?
    requires fds[k].jsonTag != "" && MustExist(FieldName(fds[k])) && FieldName(fds[k]) in p.kv
    requires FieldName(fds[k]) != "request_id" && Bad(p.kv[FieldName(fds[k])], fds[k].kind.elem.bits)
    ensures stop <= k && error.Some? && forall j :: k < j < |fds| ==> now[j] == was[j]
  {
    hide Trim, Split, ReadInts, ParseInt, SliceOutcome, Bad;
    var name, bits := FieldName(fds[k]), fds[k].kind.elem.bits;
    ListFails(name, bits, p.kv[name], was[k].ns);
    assert FieldOutcome(p, fds[k], was[k]) == SliceOutcome(IntElem(bits), name, p.kv[name], was[k]);
  }

  /** For instance, in a message that has such a list: one letter in a list of user identifiers keeps the
      nickname from being set. */
  lemma BadListInstance(autoId: string, validUtf8: string -> bool)
    requires validUtf8("bob")
    ensures var fds := [Field(true, "user_id", SliceKind(IntElem(32))), Field(true, "nick", StringKind)];
            var was := [Ints([]), Str("")];
            && Typed(fds, was)
            && Filled(Params(map["user_id" := "x", "nick" := "bob"], autoId, validUtf8), fds, was, was, 0, Some(BadText))
            && Filled(Params(map["user_id" := "7", "nick" := "bob"], autoId, validUtf8), fds, was,
                      [Ints([7]), Str("bob")], 2, None)
  {
    hide SliceOutcome, Split;
    SplitFirst("user_id", "");
    SplitFirst("nick", "");
    assert |"user_id"| == 7 && |"nick"| == 4 && |"request_id"| == 10;
    LetterList("user_id");
    DigitList("user_id");
  }

  lemma LetterList(name: string)
    requires MustExist(name)
    ensures SliceOutcome(IntElem(32), name, "x", Ints([])) == Outcome(Ints([]), Some(BadText))
  {
    hide Trim, Split, MustExist;
    OnePiece('x');
    assert ParseInt("x", 32).None?;
    assert ReadInts(["x"], 32, true) == ([], false);
    var none: seq<int> := [];
    assert none + none == none;
  }

  lemma DigitList(name: string)
    ensures SliceOutcome(IntElem(32), name, "7", Ints([])) == Outcome(Ints([7]), None)
  {
    hide Trim, Split, ParseInt;
    OnePiece('7');
    assert Itoa(7) == "7";
    ParseItoa(7, 32);
    assert ["7"][1..] == [] && ReadInts([], 32, MustExist(name)) == ([], true);
    assert ReadInts(["7"], 32, MustExist(name)) == ([7] + [], true);
    var none: seq<int> := [];
    assert none + ([7] + none) == [7];
  }

  lemma OnePiece(c: char)
    requires c !in BRACKETS && c != ','
    ensures Trim([c], BRACKETS) == [c] && Trim([c], SPACE) == [c] && Split([c]) == [[c]]
  {
    assert "" + [c] + "" == [c];
    TrimAround("", [c], "", BRACKETS);
    TrimAround("", [c], "", SPACE);
    SplitFirst([c], "");
  }
}
