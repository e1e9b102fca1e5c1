/**
 * The dynamic path resolver of the HTTP router: a request path is split into
 * segments and resolved against the JSON tree of the latest snapshot; the
 * index lists the endpoints a tree offers.
 */
module Router {
  import opened Wrappers
  import opened Text
  import opened JsonValue

  // ---------------------------------------------------------------------------
  // segments
  // ---------------------------------------------------------------------------

  /** `*` and `all` expand over every element of an array. */
  predicate IsWildcard(s: string) {
    s == "*" || s == "all"
  }

  /** The request path split on `/`, empty pieces dropped. */
  function RequestSegments(path: string): (segs: seq<string>)
    ensures forall i :: 0 <= i < |segs| ==> segs[i] != [] && '/' !in segs[i]
  {
    var pieces := SplitOn(path, '/');
    assert forall x :: x in pieces ==> '/' !in x;
    NonEmptyElems(pieces);
    NonEmpty(pieces)
  }

  /** `/k0/k1/...`: the path that addresses a sequence of segments. */
  function PathOf(ks: seq<string>): string {
    if ks == [] then "" else "/" + ks[0] + PathOf(ks[1..])
  }

  lemma {:induction false} SplitPathOf(ks: seq<string>)
    requires forall i :: 0 <= i < |ks| ==> '/' !in ks[i]
    ensures SplitOn(PathOf(ks), '/') == [""] + ks
  {
    if ks != [] {
      var tail := PathOf(ks[1..]);
      SplitPathOf(ks[1..]);
      SplitOnPrefix(ks[0], tail, '/');
      var t := SplitOn(tail, '/');
      assert t[0] == "" && t[1..] == ks[1..];
      assert ks[0] + t[0] == ks[0];
      assert SplitOn(ks[0] + tail, '/') == [ks[0]] + ks[1..];
      var s := "/" + ks[0] + tail;
      assert s[1..] == ks[0] + tail;
      assert ks == [ks[0]] + ks[1..];
    }
  }

  lemma {:induction false} NonEmptyKeepsAll(ks: seq<string>)
    requires forall i :: 0 <= i < |ks| ==> ks[i] != []
    ensures NonEmpty(ks) == ks
  {
    if ks != [] {
      NonEmptyKeepsAll(ks[1..]);
      assert ks == [ks[0]] + ks[1..];
    }
  }

  /** Segments without `/` that are not empty come back from their own path. */
  lemma SegmentsOfPath(ks: seq<string>)
    requires forall i :: 0 <= i < |ks| ==> ks[i] != [] && '/' !in ks[i]
    ensures RequestSegments(PathOf(ks)) == ks
  {
    SplitPathOf(ks);
    NonEmptyKeepsAll(ks);
    assert NonEmpty([""] + ks) == NonEmpty(ks) by {
      assert ([""] + ks)[1..] == ks;
    }
  }

  // ---------------------------------------------------------------------------
  // navigation
  // ---------------------------------------------------------------------------

  /** The position of the first item whose `name` is the string `key`, or `|items|`. */
  function NameIndex(items: seq<Json>, key: string): (k: nat)
    ensures k <= |items| && (k < |items| ==> NameOf(items[k]) == Some(key))
    ensures forall i :: 0 <= i < k ==> NameOf(items[i]) != Some(key)
  {
    NameIndexFrom(items, key, 0)
  }

  /** The position of the first item from `j` on whose `name` is `key`, or `|items|`. */
  function NameIndexFrom(items: seq<Json>, key: string, j: nat): (k: nat)
    requires j <= |items|
    ensures j <= k <= |items| && (k < |items| ==> NameOf(items[k]) == Some(key))
    ensures forall i :: j <= i < k ==> NameOf(items[i]) != Some(key)
    decreases |items| - j
  {
    if j == |items| || NameOf(items[j]) == Some(key) then j else NameIndexFrom(items, key, j + 1)
  }

  /** The first array item named `key`. */
  function FindByName(items: seq<Json>, key: string): (r: Option<Json>) {
    if NameIndex(items, key) < |items| then Some(items[NameIndex(items, key)]) else None
  }

  /** An item is found exactly when some item is named `key`, and what is found is so named. */
  lemma FindByNameSpec(items: seq<Json>, key: string)
    ensures FindByName(items, key).Some? <==> exists i :: 0 <= i < |items| && NameOf(items[i]) == Some(key)
    ensures FindByName(items, key).Some? ==>
      FindByName(items, key).value in items && NameOf(FindByName(items, key).value) == Some(key)
  {
  }

  /** One step down: an object's field, or an array's item by name. */
  function Child(v: Json, key: string): (r: Option<Json>)
    ensures r.Some? ==> v.Obj? || v.Arr?
  {
    match v
    case Obj(fs) => Lookup(fs, key)
    case Arr(items) => FindByName(items, key)
    case _ => None
  }

  /** `navigate`: the raw value at the end of the path. */
  function Navigate(v: Json, segs: seq<string>): (r: Option<Json>)
    ensures segs == [] ==> r == Some(v)
    ensures segs != [] && !v.Obj? && !v.Arr? ==> r.None?
    decreases |segs|
  {
    if segs == [] then Some(v)
    else if Child(v, segs[0]).Some? then Navigate(Child(v, segs[0]).value, segs[1..])
    else None
  }

  /** Navigating a joined path is navigating its first part, then the second from there. */
  lemma {:induction false} NavigateAppend(v: Json, a: seq<string>, b: seq<string>)
    ensures Navigate(v, a + b) == if Navigate(v, a).Some? then Navigate(Navigate(v, a).value, b) else None
    decreases |a|
  {
    if a == [] {
      assert a + b == b;
    } else {
      assert (a + b)[0] == a[0] && (a + b)[1..] == a[1..] + b;
      if Child(v, a[0]).Some? {
        NavigateAppend(Child(v, a[0]).value, a[1..], b);
      }
    }
  }

  // ---------------------------------------------------------------------------
  // resolution
  // ---------------------------------------------------------------------------

  /** `resolve_request`. */
  function ResolveRequest(v: Json, segs: seq<string>): (r: Option<Json>)
    decreases |segs|, 0, 0
  {
    if segs == [] then Some(v)
    else if |segs| == 1 && ',' in segs[0] then CommaFields(v, segs[0])
    else if IsWildcard(segs[0]) then
      if v.Arr? && Expand(v.items, segs[1..], |v.items|) != [] then Some(Arr(Expand(v.items, segs[1..], |v.items|)))
      else None
    else if v.Obj? && Lookup(v.fields, segs[0]).Some? then
      if |segs| == 1 then Some(Obj([(segs[0], Lookup(v.fields, segs[0]).value)]))
      else ResolveRequest(Lookup(v.fields, segs[0]).value, segs[1..])
    else if v.Arr? && FindByName(v.items, segs[0]).Some? then
      if |segs| == 1 then FindByName(v.items, segs[0])
      else ResolveRequest(FindByName(v.items, segs[0]).value, segs[1..])
    else None
  }

  /** The wildcard results of the first `n` items, in array order. */
  function Expand(items: seq<Json>, rest: seq<string>, n: nat): (r: seq<Json>)
    requires n <= |items|
    ensures |r| <= n
    decreases |rest|, 1, n
  {
    if n == 0 then [] else Expand(items, rest, n - 1) + Tagged(items[n - 1], rest)
  }

  /**
   * One item under a wildcard: itself when the wildcard is last; otherwise
   * the rest of the path resolved against it and tagged with its `name`, or
   * nothing when that does not resolve.
   */
  function Tagged(item: Json, rest: seq<string>): (r: seq<Json>)
    ensures |r| <= 1
    decreases |rest|, 1, 0
  {
    if rest == [] then [item]
    else if ResolveRequest(item, rest).Some? then [AttachName(ResolveRequest(item, rest).value, Get(item, "name"))]
    else []
  }

  /** `attach_name`: the `name` entry first, then the value's own entries. */
  function AttachName(v: Json, name: Option<Json>): (r: Json)
    ensures name.None? || !v.Obj? ==> r == v
    ensures name.Some? && v.Obj? ==> r.Obj? && r.fields != [] && r.fields[0].0 == "name"
    ensures name.Some? && v.Obj? ==>
      forall k :: k in Keys(r.fields) <==> k == "name" || k in Keys(v.fields)
  {
    match name
    case None => v
    case Some(n) =>
      match v
      case Obj(fs) =>
        assert Keys([("name", n)]) == ["name"];
        Obj(Extend([("name", n)], fs))
      case _ => v
  }

  /**
   * The values of the tagged object: every original key keeps its value, and
   * `name` is the attached value unless the object already had its own.
   */
  lemma AttachNameLookup(v: Json, n: Json, k: string)
    requires v.Obj? && UniqueKeys(v.fields)
    ensures AttachName(v, Some(n)).Obj? && UniqueKeys(AttachName(v, Some(n)).fields)
    ensures Lookup(AttachName(v, Some(n)).fields, k) ==
      if k in Keys(v.fields) then Lookup(v.fields, k) else if k == "name" then Some(n) else None
  {
    var one := [("name", n)];
    assert AttachName(v, Some(n)) == Obj(Extend(one, v.fields));
    assert Keys(one) == ["name"];
    assert Lookup(one, k) == if k == "name" then Some(n) else None;
    ExtendLookup(one, v.fields, k);
    ExtendUnique(one, v.fields);
  }

  // ---------------------------------------------------------------------------
  // comma-separated fields
  // ---------------------------------------------------------------------------

  /** The pieces between commas, each trimmed. */
  function TrimmedPieces(raw: string): (ts: seq<string>)
    ensures |ts| == |SplitOn(raw, ',')|
  {
    seq(|SplitOn(raw, ',')|, i requires 0 <= i < |SplitOn(raw, ',')| => Trim(SplitOn(raw, ',')[i]))
  }

  /** The trimmed, non-empty pieces between commas. */
  function FieldNames(raw: string): seq<string> {
    NonEmpty(TrimmedPieces(raw))
  }

  /** Each field name is non-empty and holds no comma. */
  lemma FieldNamesShape(raw: string)
    ensures forall i :: 0 <= i < |FieldNames(raw)| ==> FieldNames(raw)[i] != [] && ',' !in FieldNames(raw)[i]
  {
    var pieces, trimmed := SplitOn(raw, ','), TrimmedPieces(raw);
    NonEmptyElems(trimmed);
    forall x | x in trimmed
      ensures ',' !in x
    {
      var i :| 0 <= i < |trimmed| && trimmed[i] == x;
      assert x == Trim(pieces[i]);
      TrimWithin(pieces[i], ',');
    }
  }

  /**
   * The map of the first `n` names that `get` finds, each under its name
   * with the value found; a repeated name is stored once.
   */
  function Project(get: string -> Option<Json>, names: seq<string>, n: nat): (r: Fields)
    requires n <= |names|
    ensures UniqueKeys(r)
  {
    if n == 0 then [] else Gather(Project(get, names, n - 1), names[n - 1], get(names[n - 1]))
  }

  /** One step of the projection: the field is stored when it was found. */
  function Gather(acc: Fields, x: string, found: Option<Json>): (r: Fields)
    requires UniqueKeys(acc)
    ensures UniqueKeys(r)
  {
    InsertUnique(acc, x, found.GetOr(Null));
    if found.Some? then Insert(acc, x, found.value) else acc
  }

  lemma GatherLookup(acc: Fields, x: string, found: Option<Json>, k: string)
    requires UniqueKeys(acc)
    ensures Lookup(Gather(acc, x, found), k) == if x == k && found.Some? then found else Lookup(acc, k)
  {
    if found.Some? {
      InsertLookup(acc, x, found.value, k);
    }
  }

  /** Whether `k` is among the first `n` names. */
  predicate Listed(names: seq<string>, n: nat, k: string)
    requires n <= |names|
  {
    n > 0 && (names[n - 1] == k || Listed(names, n - 1, k))
  }

  lemma {:induction false} ListedIn(names: seq<string>, n: nat, k: string)
    requires n <= |names|
    ensures Listed(names, n, k) <==> exists i :: 0 <= i < n && names[i] == k
  {
    if n > 0 {
      ListedIn(names, n - 1, k);
    }
  }

  /** A name finds in the projection what `get` finds, when it is among the first `n`. */
  lemma {:induction false} ProjectLookup(get: string -> Option<Json>, names: seq<string>, n: nat, k: string)
    requires n <= |names|
    ensures Lookup(Project(get, names, n), k) == if Listed(names, n, k) then get(k) else None
  {
    if n > 0 {
      ProjectLookup(get, names, n - 1, k);
      GatherLookup(Project(get, names, n - 1), names[n - 1], get(names[n - 1]), k);
    }
  }

  /** Among all the names, listed means contained. */
  lemma ListedAll(names: seq<string>, k: string)
    ensures Listed(names, |names|, k) <==> k in names
  {
    ListedIn(names, |names|, k);
  }

  /** A single field: what navigation finds one level down. */
  function FieldOf(v: Json): string -> Option<Json> {
    k => Navigate(v, [k])
  }

  /** `resolve_comma_fields` as a value: the projection, or nothing when it is empty. */
  function CommaFields(v: Json, raw: string): (r: Option<Json>)
    ensures r.Some? ==> r.value.Obj? && r.value.fields != []
  {
    var fs := Project(FieldOf(v), FieldNames(raw), |FieldNames(raw)|);
    if fs == [] then None else Some(Obj(fs))
  }

  /** `resolve_comma_fields`: the projection of the named fields, or nothing when it is empty. */
  method ResolveCommaFields(v: Json, raw: string) returns (r: Option<Json>)
    ensures r == CommaFields(v, raw)
  {
    var names := FieldNames(raw);
    var result := FillFields(v, names);
    if result == [] {
      r := None;
    } else {
      r := Some(Obj(result));
    }
  }

  /** The loop of `resolve_comma_fields` that fills the result map name by name. */
  method FillFields(v: Json, names: seq<string>) returns (result: Fields)
    ensures result == Project(FieldOf(v), names, |names|)
  {
    result := [];
    for i := 0 to |names|
      invariant result == Project(FieldOf(v), names, i)
    {
      var found := Navigate(v, [names[i]]);
      FieldStep(v, names, i);
      // the field joins the result, under its name, when navigation finds it
      result := Gather(result, names[i], found);
    }
  }

  /** One more name: its field, when navigation finds it, joins the projection. */
  lemma FieldStep(v: Json, names: seq<string>, i: nat)
    requires i < |names|
    ensures Project(FieldOf(v), names, i + 1) == Gather(Project(FieldOf(v), names, i), names[i], Navigate(v, [names[i]]))
  {
    assert FieldOf(v)(names[i]) == Navigate(v, [names[i]]);
  }

  /** The projection is empty exactly when `get` finds none of the names. */
  lemma ProjectEmpty(get: string -> Option<Json>, names: seq<string>)
    ensures Project(get, names, |names|) == [] <==> forall n :: n in names ==> get(n).None?
  {
    var fs := Project(get, names, |names|);
    if fs == [] {
      forall n | n in names
        ensures get(n).None?
      {
        ProjectLookup(get, names, |names|, n);
        ListedAll(names, n);
      }
    } else {
      assert fs[0].0 in Keys(fs);
      ProjectLookup(get, names, |names|, fs[0].0);
      ListedAll(names, fs[0].0);
    }
  }

  /** The comma form is nothing exactly when none of the listed fields exists. */
  lemma CommaFieldsNone(v: Json, raw: string)
    ensures CommaFields(v, raw).None? <==>
      forall n :: n in FieldNames(raw) ==> Navigate(v, [n]).None?
  {
    ProjectEmpty(FieldOf(v), FieldNames(raw));
    assert forall n :: FieldOf(v)(n) == Navigate(v, [n]);
  }

  /**
   * Otherwise it holds exactly the listed fields that exist, each once and
   * with the value navigation finds.
   */
  lemma CommaFieldsSome(v: Json, raw: string, k: string)
    requires CommaFields(v, raw).Some?
    ensures UniqueKeys(CommaFields(v, raw).value.fields)
    ensures Lookup(CommaFields(v, raw).value.fields, k) == if k in FieldNames(raw) then Navigate(v, [k]) else None
  {
    var names := FieldNames(raw);
    assert FieldOf(v)(k) == Navigate(v, [k]);
    ProjectLookup(FieldOf(v), names, |names|, k);
    ListedAll(names, k);
  }

  // ---------------------------------------------------------------------------
  // properties of resolution
  // ---------------------------------------------------------------------------

  /** The empty path returns the tree itself. */
  lemma ResolveEmpty(v: Json)
    ensures ResolveRequest(v, []) == Some(v) && Navigate(v, []) == Some(v)
  {
  }

  /** A number, string, boolean or null has nothing below it. */
  lemma ResolveScalar(v: Json, segs: seq<string>)
    requires !v.Obj? && !v.Arr? && segs != []
    requires !(|segs| == 1 && ',' in segs[0])
    ensures ResolveRequest(v, segs).None?
  {
  }

  /** A wildcard needs an array; a final one returns a non-empty array as it is. */
  lemma ResolveWildcardFinal(v: Json, w: string)
    requires IsWildcard(w)
    ensures !v.Arr? ==> ResolveRequest(v, [w]).None?
    ensures v.Arr? ==> ResolveRequest(v, [w]) == if v.items == [] then None else Some(v)
  {
    assert [w][0] == w && [w][1..] == [];
    if v.Arr? {
      ExpandFinal(v.items, |v.items|);
      TakeAll(v.items);
    }
  }

  lemma {:induction false} ExpandFinal(items: seq<Json>, n: nat)
    requires n <= |items|
    ensures Expand(items, [], n) == items[..n]
  {
    if n > 0 {
      ExpandFinal(items, n - 1);
      assert items[..n] == items[..n - 1] + [items[n - 1]];
    }
  }

  /** The positions below `n` holding `true`, in increasing order. */
  ghost function Positions(bs: seq<bool>, n: nat): seq<nat>
    requires n <= |bs|
  {
    if n == 0 then [] else Positions(bs, n - 1) + Hit(bs, n - 1)
  }

  /** Position `p` alone when it holds `true`, else nothing. */
  function Hit(bs: seq<bool>, p: nat): seq<nat>
    requires p < |bs|
  {
    if bs[p] then [p] else []
  }

  lemma {:induction false} PositionsSound(bs: seq<bool>, n: nat)
    requires n <= |bs|
    ensures forall i, j :: 0 <= i < j < |Positions(bs, n)| ==> Positions(bs, n)[i] < Positions(bs, n)[j]
    ensures forall i :: 0 <= i < |Positions(bs, n)| ==> Positions(bs, n)[i] < n && bs[Positions(bs, n)[i]]
  {
    if n > 0 {
      PositionsSound(bs, n - 1);
      var ps, qs := Positions(bs, n - 1), Positions(bs, n);
      assert qs == ps + Hit(bs, n - 1);
      forall i | 0 <= i < |qs|
        ensures qs[i] < n && bs[qs[i]] && (i < |ps| ==> qs[i] == ps[i] && qs[i] < n - 1)
      {
        if i < |ps| {
          assert qs[i] == ps[i];
        } else {
          assert qs[i] == n - 1;
        }
      }
    }
  }

  lemma {:induction false} PositionsComplete(bs: seq<bool>, n: nat, p: nat)
    requires p < n <= |bs| && bs[p]
    ensures p in Positions(bs, n)
  {
    var ps := Positions(bs, n - 1);
    assert Positions(bs, n) == ps + Hit(bs, n - 1);
    if p < n - 1 {
      PositionsComplete(bs, n - 1, p);
      assert p in ps;
    } else {
      assert Hit(bs, n - 1) == [p];
    }
  }

  /** For each item, whether the rest of the path resolves against it. */
  function Resolves(items: seq<Json>, rest: seq<string>): (bs: seq<bool>)
    ensures |bs| == |items|
  {
    seq(|items|, i requires 0 <= i < |items| => ResolveRequest(items[i], rest).Some?)
  }

  /** The positions of the items the rest of the path resolves against, in order. */
  ghost function Survivors(items: seq<Json>, rest: seq<string>): seq<nat> {
    Positions(Resolves(items, rest), |items|)
  }

  /** The result a wildcard keeps for item `p`: its resolution, tagged with its `name`. */
  function TaggedAt(items: seq<Json>, rest: seq<string>, p: nat): Json
    requires p < |items| && ResolveRequest(items[p], rest).Some?
  {
    AttachName(ResolveRequest(items[p], rest).value, Get(items[p], "name"))
  }

  /** `es` holds, at each index, the tagged result for the item at the same index of `ps`. */
  ghost predicate TaggedList(items: seq<Json>, rest: seq<string>, ps: seq<nat>, es: seq<Json>) {
    |ps| == |es| &&
    forall i :: 0 <= i < |es| ==>
      ps[i] < |items| && ResolveRequest(items[ps[i]], rest).Some? && es[i] == TaggedAt(items, rest, ps[i])
  }

  /** The first `n` groups of `gs`, concatenated. */
  function Concat<T>(gs: seq<seq<T>>, n: nat): seq<T>
    requires n <= |gs|
  {
    if n == 0 then [] else Concat(gs, n - 1) + gs[n - 1]
  }

  /** Each group holds one value where `bs` is `true` and none elsewhere. */
  ghost predicate Singletons<T>(gs: seq<seq<T>>, bs: seq<bool>) {
    |gs| == |bs| && forall p :: 0 <= p < |gs| ==> |gs[p]| == if bs[p] then 1 else 0
  }

  /** Concatenating such groups keeps the values at the `true` positions, in order. */
  lemma {:induction false} ConcatPicks<T>(gs: seq<seq<T>>, bs: seq<bool>, n: nat)
    requires Singletons(gs, bs) && n <= |gs|
    ensures |Concat(gs, n)| == |Positions(bs, n)|
    ensures forall i :: 0 <= i < |Positions(bs, n)| ==> Positions(bs, n)[i] < n && bs[Positions(bs, n)[i]]
    ensures forall i :: 0 <= i < |Concat(gs, n)| ==> Concat(gs, n)[i] == gs[Positions(bs, n)[i]][0]
  {
    PositionsSound(bs, n);
    if n > 0 {
      ConcatPicks(gs, bs, n - 1);
      PositionsSound(bs, n - 1);
      var c, ps := Concat(gs, n - 1), Positions(bs, n - 1);
      assert Concat(gs, n) == c + gs[n - 1];
      assert Positions(bs, n) == ps + Hit(bs, n - 1);
      forall i | 0 <= i < |Concat(gs, n)|
        ensures Concat(gs, n)[i] == gs[Positions(bs, n)[i]][0]
      {
        if i < |c| {
          assert Concat(gs, n)[i] == c[i] && Positions(bs, n)[i] == ps[i];
        } else {
          assert bs[n - 1] && i == |c|;
          assert Concat(gs, n)[i] == gs[n - 1][0] && Positions(bs, n)[i] == n - 1;
        }
      }
    }
  }

  /** What a wildcard contributes for each item. */
  function Groups(items: seq<Json>, rest: seq<string>): (gs: seq<seq<Json>>)
    ensures |gs| == |items|
  {
    seq(|items|, p requires 0 <= p < |items| => Tagged(items[p], rest))
  }

  lemma {:induction false} ExpandGroups(items: seq<Json>, rest: seq<string>, n: nat)
    requires n <= |items|
    ensures Expand(items, rest, n) == Concat(Groups(items, rest), n)
  {
    if n > 0 {
      var gs := Groups(items, rest);
      ExpandGroups(items, rest, n - 1);
      assert Expand(items, rest, n) == Expand(items, rest, n - 1) + Tagged(items[n - 1], rest);
      assert Concat(gs, n) == Concat(gs, n - 1) + gs[n - 1];
      assert gs[n - 1] == Tagged(items[n - 1], rest);
    }
  }

  /** Below a wildcard, an item contributes its tagged result when it resolves, else nothing. */
  lemma {:induction false} TaggedOne(items: seq<Json>, rest: seq<string>, p: nat)
    requires rest != [] && p < |items|
    ensures |Groups(items, rest)[p]| == if Resolves(items, rest)[p] then 1 else 0
    ensures Resolves(items, rest)[p] ==> Groups(items, rest)[p][0] == TaggedAt(items, rest, p)
  {
    assert Groups(items, rest)[p] == Tagged(items[p], rest);
    assert Resolves(items, rest)[p] == ResolveRequest(items[p], rest).Some?;
  }

  /** The expansion of all the items holds one tagged result per surviving position. */
  lemma ExpandTagged(items: seq<Json>, rest: seq<string>)
    requires rest != []
    ensures TaggedList(items, rest, Survivors(items, rest), Expand(items, rest, |items|))
  {
    var gs, bs := Groups(items, rest), Resolves(items, rest);
    forall p | 0 <= p < |gs|
      ensures |gs[p]| == if bs[p] then 1 else 0
    {
      TaggedOne(items, rest, p);
    }
    ConcatPicks(gs, bs, |items|);
    ExpandGroups(items, rest, |items|);
    var ps, es := Survivors(items, rest), Expand(items, rest, |items|);
    forall i | 0 <= i < |es|
      ensures ps[i] < |items| && ResolveRequest(items[ps[i]], rest).Some? && es[i] == TaggedAt(items, rest, ps[i])
    {
      TaggedOne(items, rest, ps[i]);
    }
  }

  /**
   * A wildcard before more segments keeps, in array order, exactly the items
   * the rest resolves against, each result tagged with the item's `name`;
   * nothing when no item resolves or the value is not an array.
   */
  lemma ResolveWildcardInner(v: Json, w: string, rest: seq<string>)
    requires IsWildcard(w) && rest != []
    ensures !v.Arr? ==> ResolveRequest(v, [w] + rest).None?
    ensures v.Arr? ==> (ResolveRequest(v, [w] + rest).None? <==> Survivors(v.items, rest) == [])
    ensures v.Arr? ==> forall i, j :: 0 <= i < j < |Survivors(v.items, rest)| ==>
      Survivors(v.items, rest)[i] < Survivors(v.items, rest)[j]
    ensures v.Arr? ==> forall p :: 0 <= p < |v.items| && ResolveRequest(v.items[p], rest).Some? ==>
      p in Survivors(v.items, rest)
    ensures v.Arr? && ResolveRequest(v, [w] + rest).Some? ==>
      ResolveRequest(v, [w] + rest).value.Arr? &&
      TaggedList(v.items, rest, Survivors(v.items, rest), ResolveRequest(v, [w] + rest).value.items)
  {
    var segs := [w] + rest;
    assert segs[0] == w && segs[1..] == rest;
    if v.Arr? {
      PositionsSound(Resolves(v.items, rest), |v.items|);
      ExpandTagged(v.items, rest);
      forall p | 0 <= p < |v.items| && ResolveRequest(v.items[p], rest).Some?
        ensures p in Survivors(v.items, rest)
      {
        PositionsComplete(Resolves(v.items, rest), |v.items|, p);
      }
    }
  }

  /** A key of an object: last, the one-entry object; otherwise, on into the child. */
  lemma ResolveObjectKey(fs: Fields, key: string, rest: seq<string>)
    requires !IsWildcard(key) && !(rest == [] && ',' in key)
    ensures var r := ResolveRequest(Obj(fs), [key] + rest);
      match Lookup(fs, key)
      case None => r.None?
      case Some(child) => r == if rest == [] then Some(Obj([(key, child)])) else ResolveRequest(child, rest)
  {
    var segs := [key] + rest;
    assert segs[0] == key && segs[1..] == rest;
  }

  /** An array segment selects the first item with that name. */
  lemma ResolveArrayName(items: seq<Json>, key: string, rest: seq<string>)
    requires !IsWildcard(key) && !(rest == [] && ',' in key)
    ensures var r := ResolveRequest(Arr(items), [key] + rest);
      match FindByName(items, key)
      case None => r.None?
      case Some(item) => r == if rest == [] then Some(item) else ResolveRequest(item, rest)
  {
    var segs := [key] + rest;
    assert segs[0] == key && segs[1..] == rest;
  }

  /** A segment that addresses a field or an item by name and nothing else. */
  predicate PlainSegment(s: string) {
    !IsWildcard(s) && ',' !in s
  }

  /**
   * On a path of plain segments resolution agrees with navigation: it finds
   * something exactly when navigation does, and then it is the value found
   * in a one-entry object under the last segment when that segment is an
   * object's key, and the value found itself when it is an item's name.
   */
  lemma {:induction false} ResolvePlain(v: Json, segs: seq<string>)
    requires segs != [] && forall i :: 0 <= i < |segs| ==> PlainSegment(segs[i])
    ensures ResolveRequest(v, segs).Some? <==> Navigate(v, segs).Some?
    ensures Navigate(v, segs).Some? ==>
      Navigate(v, segs[..|segs| - 1]).Some? &&
      ResolveRequest(v, segs) ==
        if Navigate(v, segs[..|segs| - 1]).value.Obj?
        then Some(Obj([(segs[|segs| - 1], Navigate(v, segs).value)]))
        else Navigate(v, segs)
    decreases |segs|
  {
    assert PlainSegment(segs[0]);
    var rest := segs[1..];
    if rest == [] {
      assert segs[..|segs| - 1] == [];
    } else {
      assert forall i :: 0 <= i < |rest| ==> rest[i] == segs[i + 1];
      assert segs[|segs| - 1] == rest[|rest| - 1];
      var init := segs[..|segs| - 1];
      assert init[0] == segs[0] && init[1..] == rest[..|rest| - 1];
      if Child(v, segs[0]).Some? {
        ResolvePlain(Child(v, segs[0]).value, rest);
      }
    }
  }

  // ---------------------------------------------------------------------------
  // endpoint enumeration
  // ---------------------------------------------------------------------------

  /** Each path under a common first segment. */
  function Prefixed(key: string, ss: seq<seq<string>>): (r: seq<seq<string>>)
    ensures |r| == |ss|
    ensures forall i :: 0 <= i < |r| ==> r[i] == [key] + ss[i]
  {
    seq(|ss|, i requires 0 <= i < |ss| => [key] + ss[i])
  }

  /**
   * Which items of an array are listed: every named item, as
   * `enumerate_endpoints` does, or only the first item of each name, the one
   * the resolver finds.
   */
  datatype Listing = AllNamed | FirstNamed

  /** Whether the listing shows the item at `j`. */
  predicate Shown(items: seq<Json>, j: nat, listing: Listing)
    requires j < |items|
  {
    listing == AllNamed || (NameOf(items[j]).Some? && NameIndex(items, NameOf(items[j]).value) == j)
  }

  /** The paths an object lists, as segment sequences, entry by entry. */
  function EndpointSegs(v: Json, listing: Listing): seq<seq<string>>
    decreases v, 1
  {
    match v
    case Obj(fs) => FieldEndpoints(v, |fs|, listing)
    case _ => []
  }

  /** The paths of the first `n` entries of an object. */
  function FieldEndpoints(v: Json, n: nat, listing: Listing): seq<seq<string>>
    requires v.Obj? && n <= |v.fields|
    decreases v, 0, n
  {
    if n == 0 then []
    else FieldEndpoints(v, n - 1, listing) + EntryEndpoints(v.fields[n - 1].0, v.fields[n - 1].1, listing)
  }

  /** One entry: its key, then the paths below its value under that key. */
  function EntryEndpoints(key: string, child: Json, listing: Listing): seq<seq<string>>
    decreases child, 3
  {
    [[key]] + Prefixed(key, ChildEndpoints(child, listing))
  }

  /** Below an entry: the paths of an object, or the listed items of an array. */
  function ChildEndpoints(child: Json, listing: Listing): seq<seq<string>>
    decreases child, 2
  {
    match child
    case Obj(_) => EndpointSegs(child, listing)
    case Arr(items) => ItemsEndpoints(items, |items|, listing)
    case _ => []
  }

  /** The paths of the listed items among the first `n` of an array. */
  function ItemsEndpoints(items: seq<Json>, n: nat, listing: Listing): seq<seq<string>>
    requires n <= |items|
  {
    if n == 0 then []
    else ItemsEndpoints(items, n - 1, listing) + (if Shown(items, n - 1, listing) then ItemEndpoints(items[n - 1]) else [])
  }

  /** A named item: its name, then name and key for each key other than `name`. */
  function ItemEndpoints(item: Json): seq<seq<string>> {
    if NameOf(item).Some? then
      [[NameOf(item).value]] + FieldKeyPaths(NameOf(item).value, item.fields, |item.fields|)
    else []
  }

  /** Name and key for each of the first `m` keys other than `name`. */
  function FieldKeyPaths(name: string, fs: Fields, m: nat): seq<seq<string>>
    requires m <= |fs|
  {
    if m == 0 then []
    else FieldKeyPaths(name, fs, m - 1) + (if fs[m - 1].0 != "name" then [[name, fs[m - 1].0]] else [])
  }

  /** The listed strings: each path's segments after the prefix. */
  function Render(prefix: string, ss: seq<seq<string>>): (r: seq<string>)
    ensures |r| == |ss|
    ensures forall i :: 0 <= i < |r| ==> r[i] == prefix + PathOf(ss[i])
  {
    seq(|ss|, i requires 0 <= i < |ss| => prefix + PathOf(ss[i]))
  }

  lemma ConcatAssoc<T>(a: seq<T>, b: seq<T>, c: seq<T>)
    ensures a + (b + c) == a + b + c
  {
  }

  lemma PathOfCons(k: string, rest: seq<string>)
    ensures PathOf([k] + rest) == "/" + k + PathOf(rest)
  {
    assert ([k] + rest)[1..] == rest;
  }

  /** The listing of a single path. */
  lemma RenderOne(prefix: string, k: string)
    ensures Render(prefix, [[k]]) == [prefix + "/" + k]
  {
    PathOfCons(k, []);
    assert [k] + [] == [k];
    assert "/" + k + "" == "/" + k;
    assert prefix + ("/" + k) == prefix + "/" + k;
  }

  /** The listing of a two-segment path. */
  lemma RenderTwo(prefix: string, k: string, f: string)
    ensures Render(prefix, [[k, f]]) == [prefix + "/" + k + "/" + f]
  {
    PathOfCons(f, []);
    PathOfCons(k, [f]);
    assert [k] + [f] == [k, f];
    assert [f] + [] == [f];
    assert "/" + k + ("/" + f + "") == "/" + k + "/" + f;
    assert prefix + ("/" + k + "/" + f) == prefix + "/" + k + "/" + f;
  }

  lemma RenderAppend(prefix: string, a: seq<seq<string>>, b: seq<seq<string>>)
    ensures Render(prefix, a + b) == Render(prefix, a) + Render(prefix, b)
  {
  }

  lemma RenderPrefixed(prefix: string, key: string, ss: seq<seq<string>>)
    ensures Render(prefix, Prefixed(key, ss)) == Render(prefix + "/" + key, ss)
  {
    forall i | 0 <= i < |ss|
      ensures Render(prefix, Prefixed(key, ss))[i] == Render(prefix + "/" + key, ss)[i]
    {
      var s := [key] + ss[i];
      assert s[0] == key && s[1..] == ss[i];
    }
  }

  lemma EntryRender(prefix: string, key: string, child: Json)
    ensures Render(prefix, EntryEndpoints(key, child, AllNamed)) ==
      [prefix + "/" + key] + Render(prefix + "/" + key, ChildEndpoints(child, AllNamed))
  {
    var below := ChildEndpoints(child, AllNamed);
    RenderPrefixed(prefix, key, below);
    RenderAppend(prefix, [[key]], Prefixed(key, below));
    RenderOne(prefix, key);
  }

  /**
   * `enumerate_endpoints`: appends to `out`, in order, every path the tree
   * lists below `prefix`; `out` itself is kept as it was.
   */
  method EnumerateEndpoints(v: Json, prefix: string, out: seq<string>) returns (res: seq<string>)
    ensures res == out + Render(prefix, EndpointSegs(v, AllNamed))
    decreases v
  {
    res := out;
    if !v.Obj? {
      return;
    }
    var fs := v.fields;
    for n := 0 to |fs|
      invariant res == out + Render(prefix, FieldEndpoints(v, n, AllNamed))
    {
      var key, child := fs[n].0, fs[n].1;
      var path := prefix + "/" + key;
      ghost var before := res;
      res := res + [path];
      match child {
        case Obj(_) =>
          res := EnumerateEndpoints(child, path, res);
        case Arr(items) =>
          res := AppendItemEndpoints(items, path, res);
        case _ =>
      }
      EntryRender(prefix, key, child);
      RenderAppend(prefix, FieldEndpoints(v, n, AllNamed), EntryEndpoints(key, child, AllNamed));
      ConcatAssoc(before, [path], Render(path, ChildEndpoints(child, AllNamed)));
      ConcatAssoc(out, Render(prefix, FieldEndpoints(v, n, AllNamed)), Render(prefix, EntryEndpoints(key, child, AllNamed)));
    }
  }

  /** The loop of `enumerate_endpoints` over the items of an array entry. */
  method AppendItemEndpoints(items: seq<Json>, path: string, out: seq<string>) returns (res: seq<string>)
    ensures res == out + Render(path, ItemsEndpoints(items, |items|, AllNamed))
  {
    res := out;
    for j := 0 to |items|
      invariant res == out + Render(path, ItemsEndpoints(items, j, AllNamed))
    {
      AllNamedStep(items, j);
      RenderAppend(path, ItemsEndpoints(items, j, AllNamed), ItemEndpoints(items[j]));
      ConcatAssoc(out, Render(path, ItemsEndpoints(items, j, AllNamed)), Render(path, ItemEndpoints(items[j])));
      res := AppendItemEndpoint(items[j], path, res);
    }
  }

  /** Listing every named item, one more item adds that item's paths. */
  lemma AllNamedStep(items: seq<Json>, j: nat)
    requires j < |items|
    ensures ItemsEndpoints(items, j + 1, AllNamed) == ItemsEndpoints(items, j, AllNamed) + ItemEndpoints(items[j])
  {
    assert Shown(items, j, AllNamed);
  }

  /** One array item: nothing without a name; else its path and the paths of its other keys. */
  method AppendItemEndpoint(item: Json, path: string, out: seq<string>) returns (res: seq<string>)
    ensures res == out + Render(path, ItemEndpoints(item))
  {
    res := out;
    var name := NameOf(item);
    if name.Some? {
      var itemPath := path + "/" + name.value;
      res := res + [itemPath];
      RenderOne(path, name.value);
      var fields := item.fields;
      for m := 0 to |fields|
        invariant res == out + [itemPath] + Render(path, FieldKeyPaths(name.value, fields, m))
      {
        var fieldKey := fields[m].0;
        if fieldKey != "name" {
          RenderAppend(path, FieldKeyPaths(name.value, fields, m), [[name.value, fieldKey]]);
          RenderTwo(path, name.value, fieldKey);
          ConcatAssoc(out + [itemPath], Render(path, FieldKeyPaths(name.value, fields, m)), [itemPath + "/" + fieldKey]);
          res := res + [itemPath + "/" + fieldKey];
        }
      }
      RenderAppend(path, [[name.value]], FieldKeyPaths(name.value, fields, |fields|));
      ConcatAssoc(out, [itemPath], Render(path, FieldKeyPaths(name.value, fields, |fields|)));
    }
  }

  // ---------------------------------------------------------------------------
  // enumeration agrees with resolution
  // ---------------------------------------------------------------------------

  /** A key or name that survives the trip through a request path unchanged. */
  predicate SafeSegment(s: string) {
    s != [] && '/' !in s && PlainSegment(s)
  }

  /**
   * Keys and array names are safe segments and the keys of each object are
   * unique; with `distinctNames`, the names within each array are unique too.
   */
  predicate Hygienic(v: Json, distinctNames: bool)
    decreases v
  {
    match v
    case Obj(fs) =>
      UniqueKeys(fs) &&
      forall i :: 0 <= i < |fs| ==> SafeSegment(fs[i].0) && Hygienic(fs[i].1, distinctNames)
    case Arr(items) =>
      (forall i :: 0 <= i < |items| ==>
         Hygienic(items[i], distinctNames) && (NameOf(items[i]).Some? ==> SafeSegment(NameOf(items[i]).value))) &&
      (distinctNames ==>
         forall i, j :: 0 <= i < j < |items| && NameOf(items[i]).Some? ==> NameOf(items[i]) != NameOf(items[j]))
    case _ => true
  }

  /** A path of safe segments that navigation follows to a value. */
  ghost predicate Reachable(v: Json, p: seq<string>) {
    p != [] && (forall i :: 0 <= i < |p| ==> SafeSegment(p[i])) && Navigate(v, p).Some?
  }

  /** A step into the child under a hygienic object's key or array's name. */
  lemma ReachableUnder(v: Json, key: string, child: Json, q: seq<string>)
    requires SafeSegment(key) && Child(v, key) == Some(child)
    requires q == [] || Reachable(child, q)
    ensures Reachable(v, [key] + q)
  {
    var p := [key] + q;
    assert p[0] == key && p[1..] == q;
    assert forall i :: 1 <= i < |p| ==> p[i] == q[i - 1];
  }

  lemma {:induction false} EndpointSegsReachable(v: Json, listing: Listing)
    requires Hygienic(v, listing == AllNamed)
    ensures forall p :: p in EndpointSegs(v, listing) ==> Reachable(v, p)
    decreases v, 1
  {
    if v.Obj? {
      FieldEndpointsReachable(v, |v.fields|, listing);
    }
  }

  lemma {:induction false} FieldEndpointsReachable(v: Json, n: nat, listing: Listing)
    requires v.Obj? && n <= |v.fields| && Hygienic(v, listing == AllNamed)
    ensures forall p :: p in FieldEndpoints(v, n, listing) ==> Reachable(v, p)
    decreases v, 0, n
  {
    if n > 0 {
      FieldEndpointsReachable(v, n - 1, listing);
      var key, child := v.fields[n - 1].0, v.fields[n - 1].1;
      LookupEntry(v.fields, n - 1);
      assert Child(v, key) == Some(child);
      ChildEndpointsReachable(child, listing);
      var below := ChildEndpoints(child, listing);
      forall p | p in EntryEndpoints(key, child, listing)
        ensures Reachable(v, p)
      {
        if p == [key] {
          ReachableUnder(v, key, child, []);
        } else {
          var k :| 0 <= k < |below| && p == [key] + below[k];
          ReachableUnder(v, key, child, below[k]);
        }
      }
    }
  }

  lemma {:induction false} ChildEndpointsReachable(child: Json, listing: Listing)
    requires Hygienic(child, listing == AllNamed)
    ensures forall q :: q in ChildEndpoints(child, listing) ==> Reachable(child, q)
    decreases child, 2
  {
    match child
    case Obj(_) => EndpointSegsReachable(child, listing);
    case Arr(items) => ItemsEndpointsReachable(items, |items|, listing);
    case _ =>
  }

  /**
   * A listed item's name finds that item: with distinct names because no
   * earlier item carries it, and in the first-named listing because only
   * the first item of each name is listed.
   */
  lemma FindOwnName(items: seq<Json>, j: nat, listing: Listing)
    requires Hygienic(Arr(items), listing == AllNamed) && j < |items| && NameOf(items[j]).Some?
    requires Shown(items, j, listing)
    ensures FindByName(items, NameOf(items[j]).value) == Some(items[j])
  {
    var k := NameIndex(items, NameOf(items[j]).value);
    assert k <= j;
  }

  lemma {:induction false} ItemsEndpointsReachable(items: seq<Json>, n: nat, listing: Listing)
    requires Hygienic(Arr(items), listing == AllNamed) && n <= |items|
    ensures forall q :: q in ItemsEndpoints(items, n, listing) ==> Reachable(Arr(items), q)
  {
    if n > 0 {
      var prev := ItemsEndpoints(items, n - 1, listing);
      var last := if Shown(items, n - 1, listing) then ItemEndpoints(items[n - 1]) else [];
      assert ItemsEndpoints(items, n, listing) == prev + last;
      ItemsEndpointsReachable(items, n - 1, listing);
      if Shown(items, n - 1, listing) {
        ItemEndpointsReachable(items, n - 1, listing);
      }
      ReachableConcat(Arr(items), prev, last);
    }
  }

  lemma ReachableConcat(v: Json, a: seq<seq<string>>, b: seq<seq<string>>)
    requires forall q :: q in a ==> Reachable(v, q)
    requires forall q :: q in b ==> Reachable(v, q)
    ensures forall q :: q in a + b ==> Reachable(v, q)
  {
    forall q | q in a + b
      ensures Reachable(v, q)
    {
      if q !in a {
        assert q in b;
      }
    }
  }

  lemma ItemEndpointsReachable(items: seq<Json>, j: nat, listing: Listing)
    requires Hygienic(Arr(items), listing == AllNamed) && j < |items| && Shown(items, j, listing)
    ensures forall q :: q in ItemEndpoints(items[j]) ==> Reachable(Arr(items), q)
  {
    var item := items[j];
    if NameOf(item).Some? {
      var name := NameOf(item).value;
      var paths := FieldKeyPaths(name, item.fields, |item.fields|);
      assert ItemEndpoints(item) == [[name]] + paths;
      ItemNameReachable(items, j, listing);
      forall q | q in paths
        ensures Reachable(Arr(items), q)
      {
        ItemPathReachable(items, j, q, listing);
      }
    }
  }

  /** `/name/key` paths of a listed item are reachable. */
  lemma ItemPathReachable(items: seq<Json>, j: nat, q: seq<string>, listing: Listing)
    requires Hygienic(Arr(items), listing == AllNamed) && j < |items| && NameOf(items[j]).Some?
    requires Shown(items, j, listing)
    requires q in FieldKeyPaths(NameOf(items[j]).value, items[j].fields, |items[j].fields|)
    ensures Reachable(Arr(items), q)
  {
    var item := items[j];
    FieldKeyPathShape(NameOf(item).value, item.fields, |item.fields|, q);
    var i :| 0 <= i < |item.fields| && item.fields[i].0 == q[1];
    ItemKeyReachable(items, j, i, listing);
    assert q == [NameOf(item).value, item.fields[i].0];
  }

  lemma ItemNameReachable(items: seq<Json>, j: nat, listing: Listing)
    requires Hygienic(Arr(items), listing == AllNamed) && j < |items| && NameOf(items[j]).Some?
    requires Shown(items, j, listing)
    ensures Reachable(Arr(items), [NameOf(items[j]).value])
  {
    FindOwnName(items, j, listing);
    ReachableUnder(Arr(items), NameOf(items[j]).value, items[j], []);
    assert [NameOf(items[j]).value] + [] == [NameOf(items[j]).value];
  }

  /** `/name/key` for a key of a listed named item. */
  lemma ItemKeyReachable(items: seq<Json>, j: nat, i: nat, listing: Listing)
    requires Hygienic(Arr(items), listing == AllNamed) && j < |items| && NameOf(items[j]).Some?
    requires Shown(items, j, listing) && i < |items[j].fields|
    ensures Reachable(Arr(items), [NameOf(items[j]).value, items[j].fields[i].0])
  {
    var item := items[j];
    var name, k := NameOf(item).value, item.fields[i].0;
    FindOwnName(items, j, listing);
    ItemHygienic(items, j, listing == AllNamed);
    KeyReachable(item, i, listing == AllNamed);
    ReachableUnder(Arr(items), name, item, [k]);
    assert [name] + [k] == [name, k];
  }

  lemma ItemHygienic(items: seq<Json>, j: nat, distinctNames: bool)
    requires Hygienic(Arr(items), distinctNames) && j < |items|
    ensures Hygienic(items[j], distinctNames)
  {
  }

  /** `/key` for a key of a hygienic object. */
  lemma KeyReachable(v: Json, i: nat, distinctNames: bool)
    requires v.Obj? && Hygienic(v, distinctNames) && i < |v.fields|
    ensures Reachable(v, [v.fields[i].0])
  {
    var k := v.fields[i].0;
    assert SafeSegment(k);
    LookupEntry(v.fields, i);
    assert Child(v, k) == Some(v.fields[i].1);
    assert [k][1..] == [];
  }

  lemma {:induction false} FieldKeyPathShape(name: string, fs: Fields, m: nat, q: seq<string>)
    requires m <= |fs| && q in FieldKeyPaths(name, fs, m)
    ensures |q| == 2 && q[0] == name && exists i :: 0 <= i < m && fs[i].0 == q[1]
  {
    if q in FieldKeyPaths(name, fs, m - 1) {
      FieldKeyPathShape(name, fs, m - 1, q);
    } else {
      assert q == [name, fs[m - 1].0];
    }
  }

  /** Every path of a listing whose items all resolve splits back and resolves. */
  lemma ListingResolves(v: Json, i: nat, listing: Listing)
    requires Hygienic(v, listing == AllNamed) && i < |EndpointSegs(v, listing)|
    ensures var p := EndpointSegs(v, listing)[i];
      RequestSegments(Render("", EndpointSegs(v, listing))[i]) == p &&
      ResolveRequest(v, p).Some?
  {
    var p := EndpointSegs(v, listing)[i];
    EndpointSegsReachable(v, listing);
    assert Reachable(v, p);
    assert "" + PathOf(p) == PathOf(p);
    SegmentsOfPath(p);
    ResolvePlain(v, p);
  }

  /**
   * Enumeration agrees with resolution: in a tree whose keys and names are
   * safe segments, whose objects have unique keys and whose arrays have
   * distinct names, every listed path splits back into its own segments,
   * and the resolver finds it.
   */
  lemma ListedEndpointsResolve(v: Json, i: nat)
    requires Hygienic(v, true) && i < |Render("", EndpointSegs(v, AllNamed))|
    ensures var p := EndpointSegs(v, AllNamed)[i];
      RequestSegments(Render("", EndpointSegs(v, AllNamed))[i]) == p &&
      ResolveRequest(v, p).Some?
  {
    ListingResolves(v, i, AllNamed);
  }

  /** Two array items named `x`, the second with a field `f`. */
  const DuplicateItems: seq<Json> := [Obj([("name", Str("x"))]), Obj([("name", Str("x")), ("f", Num(1))])]

  /** `{"arr": [{"name": "x"}, {"name": "x", "f": 1}]}`. */
  const DuplicateTree: Json := Obj([("arr", Arr(DuplicateItems))])

  lemma DuplicateTreeHygienic()
    ensures Hygienic(DuplicateTree, false)
  {
    var first, second := DuplicateItems[0], DuplicateItems[1];
    assert SafeSegment("arr") && SafeSegment("name") && SafeSegment("f") && SafeSegment("x");
    assert NameOf(first) == Some("x") && NameOf(second) == Some("x");
    assert UniqueKeys(first.fields) && Hygienic(first.fields[0].1, false);
    assert Hygienic(first, false);
    assert UniqueKeys(second.fields) && Hygienic(second.fields[0].1, false) && Hygienic(second.fields[1].1, false);
    assert Hygienic(second, false);
    assert Hygienic(Arr(DuplicateItems), false);
    assert UniqueKeys(DuplicateTree.fields);
  }

  lemma DuplicateItemsListed()
    ensures ItemsEndpoints(DuplicateItems, 2, AllNamed) == [["x"], ["x"], ["x", "f"]]
    ensures ItemsEndpoints(DuplicateItems, 2, FirstNamed) == [["x"]]
  {
    var first, second := DuplicateItems[0], DuplicateItems[1];
    assert NameOf(first) == Some("x") && NameOf(second) == Some("x");
    assert NameIndex(DuplicateItems, "x") == 0;
    assert FieldKeyPaths("x", first.fields, 1) == [];
    assert FieldKeyPaths("x", second.fields, 1) == [];
    assert FieldKeyPaths("x", second.fields, 2) == [["x", "f"]];
    assert ItemEndpoints(first) == [["x"]];
    assert ItemEndpoints(second) == [["x"], ["x", "f"]];
    assert ItemsEndpoints(DuplicateItems, 1, AllNamed) == [["x"]];
    assert !Shown(DuplicateItems, 1, FirstNamed);
    assert ItemsEndpoints(DuplicateItems, 1, FirstNamed) == [["x"]];
  }

  lemma DuplicateTreeListed()
    ensures EndpointSegs(DuplicateTree, AllNamed) == [["arr"], ["arr", "x"], ["arr", "x"], ["arr", "x", "f"]]
    ensures EndpointSegs(DuplicateTree, FirstNamed) == [["arr"], ["arr", "x"]]
  {
    DuplicateItemsListed();
    var v := DuplicateTree;
    forall listing: Listing
      ensures EndpointSegs(v, listing) == EntryEndpoints("arr", Arr(DuplicateItems), listing)
    {
      assert v.fields[0] == ("arr", Arr(DuplicateItems));
      assert FieldEndpoints(v, 1, listing) == [] + EntryEndpoints("arr", Arr(DuplicateItems), listing);
    }
    var all := Prefixed("arr", [["x"], ["x"], ["x", "f"]]);
    assert all[0] == ["arr", "x"] && all[1] == ["arr", "x"] && all[2] == ["arr", "x", "f"];
    assert EntryEndpoints("arr", Arr(DuplicateItems), AllNamed) == [["arr"]] + all;
    var firstOnly := Prefixed("arr", [["x"]]);
    assert firstOnly[0] == ["arr", "x"];
    assert EntryEndpoints("arr", Arr(DuplicateItems), FirstNamed) == [["arr"]] + firstOnly;
  }

  lemma DuplicateTreeUnresolved()
    ensures ResolveRequest(DuplicateTree, ["arr", "x", "f"]).None?
  {
    var first := DuplicateItems[0];
    assert NameOf(first) == Some("x");
    assert NameIndex(DuplicateItems, "x") == 0;
    assert FindByName(DuplicateItems, "x") == Some(first);
    assert Lookup(first.fields, "f").None?;
    assert ResolveRequest(first, ["f"]).None?;
    assert ["x", "f"][1..] == ["f"] && ["arr", "x", "f"][1..] == ["x", "f"];
    assert ResolveRequest(Arr(DuplicateItems), ["x", "f"]).None?;
  }

  /**
   * When two items of an array share a name, the enumeration lists a path
   * under the second that the resolver, which stops at the first, cannot
   * find; the first-named listing leaves the second item out.
   */
  lemma DuplicateNameUnresolved()
    ensures Hygienic(DuplicateTree, false)
    ensures EndpointSegs(DuplicateTree, AllNamed) == [["arr"], ["arr", "x"], ["arr", "x"], ["arr", "x", "f"]]
    ensures Render("", EndpointSegs(DuplicateTree, AllNamed))[3] == "/arr/x/f"
    ensures ResolveRequest(DuplicateTree, ["arr", "x", "f"]).None?
    ensures EndpointSegs(DuplicateTree, FirstNamed) == [["arr"], ["arr", "x"]]
  {
    DuplicateTreeHygienic();
    DuplicateTreeListed();
    DuplicateTreeUnresolved();
    assert PathOf(["arr", "x", "f"]) == "/arr/x/f";
  }

  /**
   * Listing only the first item of each name makes every listed path
   * resolve, whether or not names repeat.
   */
  lemma FirstNamedEndpointsResolve(v: Json, i: nat)
    requires Hygienic(v, false) && i < |Render("", EndpointSegs(v, FirstNamed))|
    ensures var p := EndpointSegs(v, FirstNamed)[i];
      RequestSegments(Render("", EndpointSegs(v, FirstNamed))[i]) == p &&
      ResolveRequest(v, p).Some?
  {
    ListingResolves(v, i, FirstNamed);
  }

  /**
   * The listing of the index: `/stats` first, then every endpoint of the
   * tree in enumeration order.
   */
  method IndexEndpoints(v: Json) returns (endpoints: seq<string>)
    ensures endpoints == ["/stats"] + Render("", EndpointSegs(v, AllNamed))
  {
    endpoints := EnumerateEndpoints(v, "", ["/stats"]);
  }
}
