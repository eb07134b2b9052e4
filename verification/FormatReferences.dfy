/** What an accepted format string refers to and asks for, piece by piece, as it was written. */
module FormatReferences {
  import opened FormatSpec
  import opened FormatString

  // ---------------------------------------------------------------- references

  /** The references that are there. */
  function Present(args: seq<ArgRef>): seq<ArgRef> {
    if args == [] then [] else (if args[0] == NoRef then [] else [args[0]]) + Present(args[1..])
  }

  lemma {:induction false} PresentAppend(a: seq<ArgRef>, b: seq<ArgRef>)
    ensures Present(a + b) == Present(a) + Present(b)
  {
    if a == [] {
      assert a + b == b;
    } else {
      PresentAppend(a[1..], b);
      FirstApart(a, b);
      Regrouped(if a[0] == NoRef then [] else [a[0]], Present(a[1..]), Present(b));
    }
  }

  lemma FirstApart(a: seq<ArgRef>, b: seq<ArgRef>)
    requires a != []
    ensures (a + b)[0] == a[0] && (a + b)[1..] == a[1..] + b
  {}

  lemma Regrouped(a: seq<ArgRef>, b: seq<ArgRef>, c: seq<ArgRef>)
    ensures a + (b + c) == (a + b) + c
  {}

  /** What an id refers to when k automatic ids stand before it. */
  predicate Refers(arg: ArgRef, id: Id, k: int) {
    match id
    case AutoId => k >= 0 && arg == IndexRef(k, true)
    case NumId(n) => arg == IndexRef(n, false)
    case NameId(s) => arg == NameRef(s)
  }

  function Autos(ids: seq<Id>): nat {
    if ids == [] then 0 else (if ids[0].AutoId? then 1 else 0) + Autos(ids[1..])
  }

  /** The references are those of the ids, one after the other, numbered from ctx. */
  predicate Follow(refs: seq<ArgRef>, ids: seq<Id>, ctx: int) {
    if refs == [] || ids == [] then refs == [] && ids == []
    else Refers(refs[0], ids[0], ctx) && Follow(refs[1..], ids[1..], AfterId(ids[0], ctx))
  }

  lemma {:induction false} FollowAppend(a: seq<ArgRef>, b: seq<ArgRef>, i: seq<Id>, j: seq<Id>, ctx: int)
    requires Follow(a, i, ctx) && Follow(b, j, AfterIds(i, ctx))
    ensures Follow(a + b, i + j, ctx)
  {
    if a == [] {
      assert a + b == b && i + j == j;
    } else {
      FollowAppend(a[1..], b, i[1..], j, AfterId(i[0], ctx));
      assert (a + b)[1..] == a[1..] + b && (i + j)[1..] == i[1..] + j;
    }
  }

  lemma OneFollows(id: Id, ctx: int)
    requires Resolve(id, ctx).Ok?
    ensures var (arg, ctx') := Resolve(id, ctx).value;
            Present([arg]) == [arg] && Follow([arg], [id], ctx) && ctx' == AfterId(id, ctx) == AfterIds([id], ctx)
  {
    var arg := Resolve(id, ctx).value.0;
    assert [arg][1..] == [] && [id][1..] == [];
  }

  lemma CountFollows(c: Count, ctx: int)
    requires CountContext(c, ctx).Ok?
    ensures var (arg, ctx') := CountContext(c, ctx).value;
            Follow(Present([arg]), CountIds(c), ctx) && ctx' == AfterIds(CountIds(c), ctx)
  {
    if c.Dynamic? {
      OneFollows(c.id, ctx);
    } else {
      assert [NoRef][1..] == [];
    }
  }

  lemma {:induction false} AfterIdsAppend(a: seq<Id>, b: seq<Id>, ctx: int)
    ensures AfterIds(a + b, ctx) == AfterIds(b, AfterIds(a, ctx))
  {
    if a == [] {
      assert a + b == b;
    } else {
      AfterIdsAppend(a[1..], b, AfterId(a[0], ctx));
      assert (a + b)[1..] == a[1..] + b;
    }
  }

  lemma SpecsFollow(id: Id, x: Syntax, ctx: int)
    requires ItemMeaning(Hole(id, Some(x)), ctx).Ok?
    ensures var (piece, ctx') := ItemMeaning(Hole(id, Some(x)), ctx).value;
            && Follow(Present(Refs(piece)), ItemIds(Hole(id, Some(x))), ctx)
            && ctx' == AfterIds(ItemIds(Hole(id, Some(x))), ctx)
  {
    var (arg, ctx1) := Resolve(id, ctx).value;
    var (w, ctx2) := CountContext(x.width, ctx1).value;
    var (p, ctx3) := CountContext(x.precision, ctx2).value;
    OneFollows(id, ctx);
    CountFollows(x.width, ctx1);
    CountFollows(x.precision, ctx2);
    FollowAppend([arg], Present([w]), [id], CountIds(x.width), ctx);
    AfterIdsAppend([id], CountIds(x.width), ctx);
    FollowAppend([arg] + Present([w]), Present([p]), [id] + CountIds(x.width), CountIds(x.precision), ctx);
    AfterIdsAppend([id] + CountIds(x.width), CountIds(x.precision), ctx);
    ThreePresent(arg, w, p);
  }

  lemma ThreePresent(a: ArgRef, b: ArgRef, c: ArgRef)
    ensures Present([a, b, c]) == Present([a]) + Present([b]) + Present([c])
  {
    PresentAppend([a] + [b], [c]);
    PresentAppend([a], [b]);
    assert [a, b, c] == [a] + [b] + [c];
  }

  lemma ItemFollows(x: Item, ctx: int)
    requires ItemMeaning(x, ctx).Ok?
    ensures var (piece, ctx') := ItemMeaning(x, ctx).value;
            Follow(Present(Refs(piece)), ItemIds(x), ctx) && ctx' == AfterIds(ItemIds(x), ctx)
  {
    match x
    case Char(_) =>
    case Hole(id, None) => OneFollows(id, ctx);
    case Hole(id, Some(spec)) => SpecsFollow(id, spec, ctx);
  }

  lemma {:induction false} ItemsFollow(xs: seq<Item>, ctx: int)
    requires ItemsMeaning(xs, ctx).Ok?
    ensures Follow(Present(AllRefs(ItemsMeaning(xs, ctx).value)), ItemsIds(xs), ctx)
  {
    if xs != [] {
      var (piece, ctx') := ItemMeaning(xs[0], ctx).value;
      var rest := ItemsMeaning(xs[1..], ctx').value;
      ItemFollows(xs[0], ctx);
      ItemsFollow(xs[1..], ctx');
      assert ([piece] + rest)[1..] == rest;
      PresentAppend(Refs(piece), AllRefs(rest));
      FollowAppend(Present(Refs(piece)), Present(AllRefs(rest)), ItemIds(xs[0]), ItemsIds(xs[1..]), ctx);
    }
  }

  lemma {:induction false} NoAutosBehindNumber(refs: seq<ArgRef>, ids: seq<Id>, ctx: int)
    requires Follow(refs, ids, ctx) && ctx < 0
    ensures forall j :: 0 <= j < |ids| ==> !ids[j].AutoId?
  {
    if ids != [] {
      NoAutosBehindNumber(refs[1..], ids[1..], AfterId(ids[0], ctx));
      assert forall j :: 0 < j < |ids| ==> ids[j] == ids[1..][j - 1];
    }
  }

  lemma {:induction false} FollowIsByCount(refs: seq<ArgRef>, ids: seq<Id>, ctx: int, j: nat)
    requires Follow(refs, ids, ctx) && ctx >= 0 && j < |ids|
    ensures |refs| == |ids| && Refers(refs[j], ids[j], ctx + Autos(ids[..j]))
  {
    SameLength(refs, ids, ctx);
    if j > 0 {
      if ids[0].NumId? {
        NoAutosBehindNumber(refs[1..], ids[1..], -1);
        assert ids[j] == ids[1..][j - 1];
        FollowAt(refs[1..], ids[1..], -1, j - 1);
      } else {
        FollowIsByCount(refs[1..], ids[1..], AfterId(ids[0], ctx), j - 1);
        assert ids[..j][1..] == ids[1..][..j - 1];
      }
    }
  }

  lemma {:induction false} SameLength(refs: seq<ArgRef>, ids: seq<Id>, ctx: int)
    requires Follow(refs, ids, ctx)
    ensures |refs| == |ids|
  {
    if ids != [] && refs != [] { SameLength(refs[1..], ids[1..], AfterId(ids[0], ctx)); }
  }

  /** An id that is not automatic refers to the same wherever it stands. */
  lemma {:induction false} FollowAt(refs: seq<ArgRef>, ids: seq<Id>, ctx: int, j: nat)
    requires Follow(refs, ids, ctx) && j < |ids| && !ids[j].AutoId?
    ensures |refs| == |ids| && forall k :: Refers(refs[j], ids[j], k)
  {
    SameLength(refs, ids, ctx);
    if j > 0 { FollowAt(refs[1..], ids[1..], AfterId(ids[0], ctx), j - 1); }
  }

  /** The references of an accepted string are its ids in order: a number refers to the argument of that
      number, a name to that of the name, and the k-th automatic one to argument k. */
  lemma ReferencesAsWritten(xs: seq<Item>)
    requires ValidItems(xs) && Parse(PrintItems(xs), 0).Ok?
    ensures var refs, ids := Present(AllRefs(Parse(PrintItems(xs), 0).value)), ItemsIds(xs);
            |refs| == |ids| && forall j :: 0 <= j < |ids| ==> Refers(refs[j], ids[j], Autos(ids[..j]))
  {
    ParsePrinted(xs, 0);
    ItemsFollow(xs, 0);
    AllByCount(Present(AllRefs(Parse(PrintItems(xs), 0).value)), ItemsIds(xs));
  }

  lemma AllByCount(refs: seq<ArgRef>, ids: seq<Id>)
    requires Follow(refs, ids, 0)
    ensures |refs| == |ids| && forall j :: 0 <= j < |ids| ==> Refers(refs[j], ids[j], Autos(ids[..j]))
  {
    SameLength(refs, ids, 0);
    forall j | 0 <= j < |ids| ensures Refers(refs[j], ids[j], Autos(ids[..j])) { FollowIsByCount(refs, ids, 0, j); }
  }

  // ---------------------------------------------------------------- the pieces

  /** The fields of a specification as written; where nothing is, none, blank, the default alignment, -1. */
  predicate SpecsMatch(x: Syntax, s: Specs) {
    && s.width == (if x.width.Literal? then x.width.n else 0)
    && s.precision == (if x.precision.Literal? then x.precision.n else -1)
    && s.fill == (if x.zero then '0' else if x.align.FillAlign? then x.align.c else ' ')
    && s.align == (if x.zero then Numeric else if x.align.NoAlign? then Default else x.align.a)
    && s.flags == Flags(x.sign == Plus || x.sign == Space, x.sign == Plus, x.sign == Minus, x.hash)
    && s.typ == x.typ && (s.widthRef != NoRef <==> x.width.Dynamic?)
    && (s.precisionRef != NoRef <==> x.precision.Dynamic?)
  }

  predicate Matches(x: Item, p: Piece) {
    match x
    case Char(c) => p == Lit(c)
    case Hole(_, None) => p.Field? && p.specs == None && p.arg != NoRef
    case Hole(_, Some(spec)) => p.Field? && p.arg != NoRef && p.specs.Some? && SpecsMatch(spec, p.specs.value)
  }

  lemma ItemMatches(x: Item, ctx: int)
    requires ItemMeaning(x, ctx).Ok?
    ensures Matches(x, ItemMeaning(x, ctx).value.0)
  {
    if x.Hole? && x.spec.Some? { MeaningMatches(x.spec.value, Resolve(x.id, ctx).value.1); }
  }

  lemma MeaningMatches(x: Syntax, ctx: int)
    requires Meaning(x, ctx).Ok?
    ensures SpecsMatch(x, Meaning(x, ctx).value.0)
  {}

  lemma {:induction false} ItemsMatch(xs: seq<Item>, ctx: int, i: nat)
    requires ItemsMeaning(xs, ctx).Ok? && i < |xs|
    ensures |ItemsMeaning(xs, ctx).value| == |xs| && Matches(xs[i], ItemsMeaning(xs, ctx).value[i])
  {
    ItemMatches(xs[0], ctx);
    SameCount(xs, ctx);
    if i > 0 { ItemsMatch(xs[1..], ItemMeaning(xs[0], ctx).value.1, i - 1); }
  }

  lemma {:induction false} SameCount(xs: seq<Item>, ctx: int)
    requires ItemsMeaning(xs, ctx).Ok?
    ensures |ItemsMeaning(xs, ctx).value| == |xs|
  {
    if xs != [] { SameCount(xs[1..], ItemMeaning(xs[0], ctx).value.1); }
  }

  /** The pieces of an accepted string are its items in order: each character, and each field with the
      specification that was written. */
  lemma PiecesAsWritten(xs: seq<Item>)
    requires ValidItems(xs) && Parse(PrintItems(xs), 0).Ok?
    ensures var ps := Parse(PrintItems(xs), 0).value;
            |ps| == |xs| && forall i :: 0 <= i < |xs| ==> Matches(xs[i], ps[i])
  {
    ParsePrinted(xs, 0);
    SameCount(xs, 0);
    forall i | 0 <= i < |xs| ensures Matches(xs[i], Parse(PrintItems(xs), 0).value[i]) { ItemsMatch(xs, 0, i); }
  }

  // ---------------------------------------------------------------- which error

  predicate Mixes(ids: seq<Id>) {
    exists i, j :: 0 <= i < |ids| && 0 <= j < |ids| && ids[i].AutoId? && ids[j].NumId?
  }

  /** The error that the first id against the numbering so far deserves. */
  predicate Deserved(ids: seq<Id>, j: nat, m: string) {
    && j < |ids| && !Mixes(ids[..j]) && Mixes(ids[..j + 1])
    && m == if ids[j].AutoId? then "cannot switch from manual to automatic argument indexing"
            else "cannot switch from automatic to manual argument indexing"
  }

  /** Id j is the first that cannot be numbered, with error m. */
  predicate FaultyAt(ids: seq<Id>, ctx: int, j: nat, m: string) {
    j < |ids| && Numberable(ids[..j], ctx) && Resolve(ids[j], AfterIds(ids[..j], ctx)) == Err(m)
  }

  ghost predicate Faulty(ids: seq<Id>, ctx: int, m: string) { exists j: nat :: FaultyAt(ids, ctx, j, m) }

  lemma FaultBefore(a: seq<Id>, b: seq<Id>, ctx: int, m: string)
    requires Faulty(a, ctx, m)
    ensures Faulty(a + b, ctx, m)
  {
    var j: nat :| FaultyAt(a, ctx, j, m);
    assert (a + b)[..j] == a[..j] && (a + b)[j] == a[j];
    assert FaultyAt(a + b, ctx, j, m);
  }

  lemma FaultBehind(a: seq<Id>, b: seq<Id>, ctx: int, m: string)
    requires Numberable(a, ctx) && Faulty(b, AfterIds(a, ctx), m)
    ensures Faulty(a + b, ctx, m)
  {
    var j: nat :| FaultyAt(b, AfterIds(a, ctx), j, m);
    assert (a + b)[..|a| + j] == a + b[..j] && (a + b)[|a| + j] == b[j];
    NumberableAppend(a, b[..j], ctx);
    AfterIdsAppend(a, b[..j], ctx);
    assert FaultyAt(a + b, ctx, |a| + j, m);
  }

  lemma OneFault(id: Id, ctx: int, m: string)
    requires Resolve(id, ctx) == Err(m)
    ensures Faulty([id], ctx, m)
  {
    assert [id][..0] == [];
    assert FaultyAt([id], ctx, 0, m);
  }

  lemma MeaningFault(x: Syntax, ctx: int, m: string)
    requires Meaning(x, ctx) == Err(m)
    ensures Faulty(CountIds(x.width) + CountIds(x.precision), ctx, m)
  {
    if CountContext(x.width, ctx).Err? {
      OneFault(x.width.id, ctx, m);
      FaultBefore(CountIds(x.width), CountIds(x.precision), ctx, m);
    } else {
      var ctx' := CountContext(x.width, ctx).value.1;
      CountNumbers(x.width, [], ctx);
      OneFault(x.precision.id, ctx', m);
      FaultBehind(CountIds(x.width), CountIds(x.precision), ctx, m);
    }
  }

  lemma ItemFault(x: Item, ctx: int, m: string)
    requires ItemMeaning(x, ctx) == Err(m)
    ensures Faulty(ItemIds(x), ctx, m)
  {
    if Resolve(x.id, ctx).Err? {
      OneFault(x.id, ctx, m);
      if x.spec.Some? {
        FaultBefore([x.id], CountIds(x.spec.value.width), ctx, m);
        FaultBefore([x.id] + CountIds(x.spec.value.width), CountIds(x.spec.value.precision), ctx, m);
      }
    } else {
      SpecFault(x.id, x.spec.value, ctx, m);
    }
  }

  lemma SpecFault(id: Id, x: Syntax, ctx: int, m: string)
    requires Resolve(id, ctx).Ok? && Meaning(x, Resolve(id, ctx).value.1) == Err(m)
    ensures Faulty(ItemIds(Hole(id, Some(x))), ctx, m)
  {
    var ids := CountIds(x.width) + CountIds(x.precision);
    FirstNumbers(id, [], ctx);
    assert [id] + [] == [id];
    MeaningFault(x, AfterId(id, ctx), m);
    HoleIds(id, x);
    FaultBehind([id], ids, ctx, m);
  }

  lemma HoleIds(id: Id, x: Syntax)
    ensures ItemIds(Hole(id, Some(x))) == [id] + (CountIds(x.width) + CountIds(x.precision))
  {}

  lemma {:induction false} ItemsFault(xs: seq<Item>, ctx: int, m: string)
    requires ItemsMeaning(xs, ctx) == Err(m)
    ensures Faulty(ItemsIds(xs), ctx, m)
  {
    if ItemMeaning(xs[0], ctx).Err? {
      ItemFault(xs[0], ctx, m);
      FaultBefore(ItemIds(xs[0]), ItemsIds(xs[1..]), ctx, m);
    } else {
      var ctx' := ItemMeaning(xs[0], ctx).value.1;
      ItemMeaningNumbers(xs[0], ctx);
      ItemsFault(xs[1..], ctx', m);
      FaultBehind(ItemIds(xs[0]), ItemsIds(xs[1..]), ctx, m);
    }
  }

  /** A printed list that is rejected is so at the first id that is automatic behind a number, or a number
      behind an automatic one, with the error that says which. */
  lemma RejectedAsDeserved(xs: seq<Item>)
    requires ValidItems(xs) && Parse(PrintItems(xs), 0).Err?
    ensures exists j: nat :: Deserved(ItemsIds(xs), j, Parse(PrintItems(xs), 0).message)
  {
    var m, ids := Parse(PrintItems(xs), 0).message, ItemsIds(xs);
    ParsePrinted(xs, 0);
    ItemsFault(xs, 0, m);
    var j: nat :| FaultyAt(ids, 0, j, m);
    FaultIsDeserved(ids, j, m);
  }

  lemma FaultIsDeserved(ids: seq<Id>, j: nat, m: string)
    requires FaultyAt(ids, 0, j, m)
    ensures Deserved(ids, j, m)
  {
    NumberableMixes(ids[..j]);
    NumberableMixes(ids[..j + 1]);
    assert ids[..j + 1] == ids[..j] + [ids[j]];
    NumberableAppend(ids[..j], [ids[j]], 0);
  }

  lemma NumberableMixes(ids: seq<Id>)
    ensures Numberable(ids, 0) <==> !Mixes(ids)
  {
    NumberableIsAcceptable(ids, 0);
    if !Acceptable(ids, 0) {
      var i :| 0 <= i < |ids| && ids[i].AutoId? && exists j :: 0 <= j < |ids| && ids[j].NumId?;
      assert Mixes(ids);
    }
  }
}
