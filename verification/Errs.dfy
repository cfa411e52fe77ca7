/** Classified errors: `Wrap` and `Classify` over trees of wrapped errors, and the shared,
    mutable details of one classified error. */
module ErrsModel {
  import opened Basics

  type Class = string

  const INTERNAL: Class := "internal"

  /** The part of an `*errs.Error` that its methods change in place; its identity is the
      identity of the error. */
  class Details {
    var entries: map<string, string>

    constructor ()
      ensures entries == map[]
    {
      entries := map[];
    }

    method WithDetail(key: string, value: string)
      modifies this
      ensures entries == old(entries)[key := value]
    {
      entries := entries[key := value];
    }

    method WithDetails(details: map<string, string>)
      modifies this
      ensures entries == old(entries) + details
    {
      var rest := details.Keys;
      while rest != {}
        invariant rest <= details.Keys
        invariant entries == old(entries) + (map k | k in details && k !in rest :: details[k])
        decreases rest
      {
        var k :| k in rest;
        WithDetail(k, details[k]);
        rest := rest - {k};
      }
      assert (map k | k in details && k !in rest :: details[k]) == details;
    }
  }

  /** A non-nil error: a plain one, one that wraps a single error with %w, one that wraps several,
      or a classified one. */
  datatype Err =
    | Plain(id: int)
    | Fmt(inner: Err)
    | Join(children: seq<Err>)
    | Classified(details: Details, class_: Class, code: string, message: string, cause: Option<Err>)

  // ---- errors.As, Wrap, Classify, Unwrap ---------------------------------------------------

  /** The first classified error in the pre-order that errors.As follows. */
  function Find(e: Err): (r: Option<Err>)
    ensures r.Some? ==> r.value.Classified?
    decreases e, 0
  {
    match e
    case Plain(_) => None
    case Fmt(inner) => Find(inner)
    case Join(children) => FindFirst(children)
    case Classified(_, _, _, _, _) => Some(e)
  }

  function FindFirst(es: seq<Err>): (r: Option<Err>)
    ensures r.Some? ==> r.value.Classified?
    decreases es
  {
    if es == [] then None
    else if Find(es[0]).Some? then Find(es[0])
    else FindFirst(es[1..])
  }

  function New(d: Details, class_: Class, code: string, message: string): Err {
    Classified(d, class_, code, message, None)
  }

  function Wrap(err: Option<Err>, d: Details, class_: Class, code: string, message: string): Option<Err> {
    if err.None? then None
    else if Find(err.value).Some? then Find(err.value)
    else Some(Classified(d, class_, code, message, err))
  }

  function Classify(err: Option<Err>): Class {
    if err.Some? && Find(err.value).Some? then Find(err.value).value.class_ else INTERNAL
  }

  function Unwrap(e: Err): Option<Err>
    requires e.Classified?
  {
    e.cause
  }

  // ---- What they give ----------------------------------------------------------------------

  /** Nil is never classified: wrapping it gives nil again, whatever is asked for. */
  lemma NilStaysNil(d: Details, class_: Class, code: string, message: string)
    ensures Wrap(None, d, class_, code, message) == None
    ensures Classify(None) == "internal"
  {
  }

  /** New and the first Wrap make an error of just this class, code and message, with its own
      details, that Classify finds; New's has no cause, Wrap's has the error given. An error that is
      itself classified is returned by Wrap as it is. */
  lemma MadeAsAsked(e: Err, d: Details, class_: Class, code: string, message: string)
    ensures var n := New(d, class_, code, message);
            && n.Classified? && n.details == d && n.class_ == class_ && n.code == code && n.message == message
            && Unwrap(n) == None && Classify(Some(n)) == class_
    ensures e.Classified? ==> Wrap(Some(e), d, class_, code, message) == Some(e) && Classify(Some(e)) == e.class_
    ensures Find(e).None? ==>
            var w := Wrap(Some(e), d, class_, code, message);
            && w.Some? && w.value.Classified? && w.value.details == d && w.value.class_ == class_
            && w.value.code == code && w.value.message == message
            && Unwrap(w.value) == Some(e) && Classify(w) == class_
  {
  }

  /** Of errors joined together, the one found is that of the first, `i`, that has a classified error
      in it; none is found exactly if none has. */
  lemma {:induction false} JoinFindsFirst(es: seq<Err>) returns (i: nat)
    ensures i <= |es| && forall j: nat :: j < i ==> Nesting(es[j]) == 0
    ensures if i < |es| then Nesting(es[i]) > 0 && Find(Join(es)) == Find(es[i]) else Find(Join(es)).None?
    decreases |es|
  {
    i := 0;
    if es != [] {
      FindMeetsNesting(es[0]);
      if Find(es[0]).None? {
        var rest := es[1..];
        i := JoinFindsFirst(rest);
        assert Find(Join(rest)) == FindFirst(rest) && Find(Join(es)) == FindFirst(es) == FindFirst(rest);
        i := i + 1;
        forall j: nat | j < i ensures Nesting(es[j]) == 0 {
          assert j > 0 ==> es[j] == rest[j - 1];
        }
      }
    }
  }

  // ---- No classification beneath a classification ------------------------------------------

  /** The largest number of classified errors on one path down the tree. */
  function Nesting(e: Err): nat
    decreases e, 0
  {
    match e
    case Plain(_) => 0
    case Fmt(inner) => Nesting(inner)
    case Join(children) => NestingOfAll(children)
    case Classified(_, _, _, _, cause) => 1 + if cause.Some? then Nesting(cause.value) else 0
  }

  function NestingOfAll(es: seq<Err>): nat
    decreases es
  {
    if es == [] then 0 else
      var a, b := Nesting(es[0]), NestingOfAll(es[1..]);
      if a < b then b else a
  }

  /** How an error can be built: the fields of an `*errs.Error` are set only by New and Wrap. */
  datatype Recipe =
    | MakePlain(id: int)
    | MakeNew(d: Details, class_: Class, code: string, message: string)
    | MakeWrap(of: Recipe, d: Details, class_: Class, code: string, message: string)
    | MakeFmt(of: Recipe)
    | MakeJoin(parts: seq<Recipe>)

  function Build(r: Recipe): Err
    decreases r, 0
  {
    match r
    case MakePlain(id) => Plain(id)
    case MakeNew(d, class_, code, message) => New(d, class_, code, message)
    case MakeWrap(of, d, class_, code, message) => Wrap(Some(Build(of)), d, class_, code, message).value
    case MakeFmt(of) => Fmt(Build(of))
    case MakeJoin(parts) => Join(BuildAll(parts))
  }

  function BuildAll(rs: seq<Recipe>): seq<Err>
    decreases rs
  {
    if rs == [] then [] else [Build(rs[0])] + BuildAll(rs[1..])
  }

  lemma {:induction false} FindMeetsNesting(e: Err)
    ensures Find(e).None? <==> Nesting(e) == 0
    ensures Find(e).Some? ==> Nesting(Find(e).value) <= Nesting(e)
    decreases e, 0
  {
    match e
    case Plain(_) =>
    case Fmt(inner) => FindMeetsNesting(inner);
    case Join(children) => FindFirstMeetsNesting(children);
    case Classified(_, _, _, _, _) =>
  }

  lemma {:induction false} FindFirstMeetsNesting(es: seq<Err>)
    ensures FindFirst(es).None? <==> NestingOfAll(es) == 0
    ensures FindFirst(es).Some? ==> Nesting(FindFirst(es).value) <= NestingOfAll(es)
    decreases es
  {
    if es != [] {
      FindMeetsNesting(es[0]);
      FindFirstMeetsNesting(es[1..]);
    }
  }

  /** However an error is built, no classified error has another one beneath it. */
  lemma {:induction false} ClassifiedOnce(r: Recipe)
    ensures Nesting(Build(r)) <= 1
    decreases r, 0
  {
    match r
    case MakePlain(_) =>
    case MakeNew(_, _, _, _) =>
    case MakeWrap(of, _, _, _, _) =>
      ClassifiedOnce(of);
      FindMeetsNesting(Build(of));
    case MakeFmt(of) => ClassifiedOnce(of);
    case MakeJoin(parts) => AllClassifiedOnce(parts);
  }

  lemma {:induction false} AllClassifiedOnce(rs: seq<Recipe>)
    ensures NestingOfAll(BuildAll(rs)) <= 1
    decreases rs
  {
    if rs != [] {
      ClassifiedOnce(rs[0]);
      AllClassifiedOnce(rs[1..]);
      assert BuildAll(rs)[1..] == BuildAll(rs[1..]);
    }
  }

  // ---- The first classification wins -------------------------------------------------------

  /** What layers of a program do to an error on its way up. */
  datatype Layer = Rewrap(d: Details, class_: Class, code: string, message: string) | Annotate

  function Through(e: Err, layers: seq<Layer>): Err {
    if layers == [] then e
    else
      var below, last := Through(e, layers[..|layers| - 1]), layers[|layers| - 1];
      match last
      case Rewrap(d, class_, code, message) => Wrap(Some(below), d, class_, code, message).value
      case Annotate => Fmt(below)
  }

  /** The index of the first Rewrap among the layers; their number if there is none. */
  function FirstRewrap(layers: seq<Layer>): (i: nat)
    ensures i <= |layers| && (i < |layers| ==> layers[i].Rewrap?)
    ensures forall k :: 0 <= k < i ==> layers[k].Annotate?
  {
    if layers == [] then 0
    else
      var n := |layers| - 1;
      var i := FirstRewrap(layers[..n]);
      if i < n || layers[n].Rewrap? then i else |layers|
  }

  /** Layers never replace a classification. An error that carried one keeps that very object.
      One that did not takes class, code, message and object from the first Rewrap, whose cause
      is the error as it was below that layer; without a Rewrap it stays unclassified. */
  lemma {:induction false} FirstClassificationWins(e: Err, layers: seq<Layer>)
    ensures var i := FirstRewrap(layers);
            Find(Through(e, layers)) ==
            if Find(e).Some? then Find(e)
            else if i == |layers| then None
            else Some(Classified(layers[i].d, layers[i].class_, layers[i].code, layers[i].message,
                                 Some(Through(e, layers[..i]))))
    ensures Classify(Some(Through(e, layers))) ==
            if Find(e).Some? then Find(e).value.class_
            else if FirstRewrap(layers) < |layers| then layers[FirstRewrap(layers)].class_
            else INTERNAL
  {
    if layers != [] {
      var n := |layers| - 1;
      FirstClassificationWins(e, layers[..n]);
      var i := FirstRewrap(layers);
      if i < n {
        assert layers[..n][..i] == layers[..i];
      }
    }
  }

  /** Once classified, any further Wrap returns that same object, whatever it asks for. */
  lemma WrapIsIdempotent(e: Err, layers: seq<Layer>, d: Details, class_: Class, code: string, message: string)
    requires Find(e).Some?
    ensures Wrap(Some(Through(e, layers)), d, class_, code, message) == Find(e)
  {
    FirstClassificationWins(e, layers);
  }

  // ---- Unwrap undoes Wrap exactly for unclassified errors ----------------------------------

  function Size(e: Err): nat
    decreases e, 0
  {
    match e
    case Plain(_) => 1
    case Fmt(inner) => 1 + Size(inner)
    case Join(children) => 1 + SizeOfAll(children)
    case Classified(_, _, _, _, cause) => 1 + if cause.Some? then Size(cause.value) else 0
  }

  function SizeOfAll(es: seq<Err>): nat
    decreases es
  {
    if es == [] then 0 else Size(es[0]) + SizeOfAll(es[1..])
  }

  lemma {:induction false} FoundIsNotLarger(e: Err)
    ensures Find(e).Some? ==> Size(Find(e).value) <= Size(e)
    decreases e, 0
  {
    match e
    case Plain(_) =>
    case Fmt(inner) => FoundIsNotLarger(inner);
    case Join(children) => FoundFirstIsNotLarger(children);
    case Classified(_, _, _, _, _) =>
  }

  lemma {:induction false} FoundFirstIsNotLarger(es: seq<Err>)
    ensures FindFirst(es).Some? ==> Size(FindFirst(es).value) <= SizeOfAll(es)
    decreases es
  {
    if es != [] {
      FoundIsNotLarger(es[0]);
      FoundFirstIsNotLarger(es[1..]);
    }
  }

  lemma UnwrapUndoesWrap(e: Err, d: Details, class_: Class, code: string, message: string)
    ensures Unwrap(Wrap(Some(e), d, class_, code, message).value) == Some(e) <==> Find(e).None?
  {
    FoundIsNotLarger(e);
  }
}
