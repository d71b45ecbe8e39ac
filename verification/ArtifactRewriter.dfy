/** Rewriting the typed artifact along with the instruction text: origins are conserved and identities stay unique. */
module ArtifactRewriter {
  import opened Wrappers
  import opened Permutations
  import opened BytecodeIr
  import opened LegacyAdapter
  import opened Sorting

  const MAX_ID: nat := 0xffff_ffff_ffff_ffff

  datatype RewriteError =
    | SizeMismatch
    | DuplicateInputIds
    | ConflictingSizes
    | RepeatedSource
    | InvalidSource
    | SharedSource
    | MixedRegions
    | IdentityOverflow
    | DuplicateOutputIds

  /** Identities of 64 bits. */
  predicate IdsFit(a: seq<Instruction>) {
    forall i :: 0 <= i < |a| ==> a[i].id <= MAX_ID && forall k :: 0 <= k < |a[i].origins| ==> a[i].origins[k] <= MAX_ID
  }

  // ----- reversing a position map -----

  function SourcesOf(oldToNew: seq<Option<nat>>, newPC: nat): (r: seq<nat>)
    ensures forall x: nat :: x in r <==> x < |oldToNew| && oldToNew[x] == Some(newPC)
    ensures Ascending(r)
  {
    if oldToNew == [] then []
    else
      var last := |oldToNew| - 1;
      var before := SourcesOf(oldToNew[..last], newPC);
      assert forall i :: 0 <= i < |before| ==> before[i] in before;
      if oldToNew[last] == Some(newPC) then before + [last] else before
  }

  function Reverse(oldToNew: seq<Option<nat>>, count: nat): (r: seq<seq<nat>>)
    ensures |r| == count
  {
    seq(count, newPC requires 0 <= newPC < count => SourcesOf(oldToNew, newPC))
  }

  /** reverseMapping: empty when some position is out of range. */
  method ReverseMapping(oldToNew: seq<Option<nat>>, count: nat) returns (r: seq<seq<nat>>)
    ensures (forall i :: 0 <= i < |oldToNew| && oldToNew[i].Some? ==> oldToNew[i].value < count) ==>
              r == Reverse(oldToNew, count)
    ensures (exists i :: 0 <= i < |oldToNew| && oldToNew[i].Some? && oldToNew[i].value >= count) ==> r == []
  {
    r := seq(count, _ => []);
    assert r == Reverse(oldToNew[..0], count);
    for oldPC := 0 to |oldToNew|
      invariant r == Reverse(oldToNew[..oldPC], count)
      invariant forall i :: 0 <= i < oldPC && oldToNew[i].Some? ==> oldToNew[i].value < count
    {
      assert oldToNew[..oldPC + 1][..oldPC] == oldToNew[..oldPC];
      if oldToNew[oldPC].Some? {
        var newPC := oldToNew[oldPC].value;
        if newPC >= count {
          return [];
        }
        r := r[newPC := r[newPC] + [oldPC]];
      }
    }
    assert oldToNew[..|oldToNew|] == oldToNew;
  }

  // ----- what a rewrite must respect -----

  function Effective(i: Instruction): set<nat> {
    if i.origins == [] then {i.id} else Elements(i.origins)
  }

  function OriginsOf(a: seq<Instruction>, sources: seq<nat>): set<nat>
    requires forall k :: 0 <= k < |sources| ==> sources[k] < |a|
  {
    if sources == [] then {} else Effective(a[sources[0]]) + OriginsOf(a, sources[1..])
  }

  predicate SizesAgree(a: Body, b: Body) {
    a.PlaceholderBody? && b.PlaceholderBody? && a.name == b.name && a.expectedSize.Some? && b.expectedSize.Some? ==>
      a.expectedSize == b.expectedSize
  }

  predicate ConsistentSizes(a: seq<Instruction>) {
    forall i, j :: 0 <= i < |a| && 0 <= j < |a| ==> SizesAgree(a[i].body, a[j].body)
  }

  predicate SourcesFit(a: seq<Instruction>, sources: seq<nat>) {
    && Distinct(sources)
    && (forall k :: 0 <= k < |sources| ==> sources[k] < |a|)
    && (forall k :: 0 <= k < |sources| ==> a[sources[k]].region == a[sources[0]].region)
  }

  predicate Unshared(newToOld: seq<seq<nat>>) {
    forall p, q, x :: 0 <= p < q < |newToOld| && x in newToOld[p] ==> x !in newToOld[q]
  }

  function Synthetic(newToOld: seq<seq<nat>>): nat {
    if newToOld == [] then 0
    else Synthetic(newToOld[..|newToOld| - 1]) + if newToOld[|newToOld| - 1] == [] then 1 else 0
  }

  /** The identities still free above every one in use. */
  datatype Supply = Supply(next: nat, available: bool)

  function Record(s: Supply, id: nat): Supply {
    if id == MAX_ID then s.(available := false)
    else if s.available then s.(next := if s.next < id + 1 then id + 1 else s.next)
    else s
  }

  function Recorded(ids: seq<nat>): Supply {
    if ids == [] then Supply(1, true) else Record(Recorded(ids[..|ids| - 1]), ids[|ids| - 1])
  }

  function Room(s: Supply): nat {
    if s.available && s.next <= MAX_ID then MAX_ID - s.next + 1 else 0
  }

  function AllOrigins(a: seq<Instruction>): seq<nat> {
    if a == [] then []
    else
      var last := a[|a| - 1];
      AllOrigins(a[..|a| - 1]) + if last.origins == [] then [last.id] else last.origins
  }

  /** Exactly what a rewrite needs to succeed. */
  predicate Acceptable(a: seq<Instruction>, newToOld: seq<seq<nat>>) {
    && UniqueIds(a) && ConsistentSizes(a)
    && (forall p :: 0 <= p < |newToOld| ==> SourcesFit(a, newToOld[p])) && Unshared(newToOld)
    && Synthetic(newToOld) <= Room(Recorded(Ids(a))) && Synthetic(newToOld) <= Room(Recorded(AllOrigins(a)))
  }

  lemma {:induction false} RecordedIsAbove(ids: seq<nat>)
    requires forall k :: 0 <= k < |ids| ==> ids[k] <= MAX_ID
    ensures var s := Recorded(ids);
            && 1 <= s.next <= MAX_ID && (s.available ==> forall k :: 0 <= k < |ids| ==> ids[k] < s.next)
  {
    if ids != [] {
      RecordedIsAbove(ids[..|ids| - 1]);
    }
  }

  /** Synthetic identities are handed out one above another. */
  function Draw(s: Supply): Supply {
    if s.next == MAX_ID then s.(available := false) else s.(next := s.next + 1)
  }

  // ----- placeholder sizes -----

  /** What is known of each placeholder's size: the first size given for its name. */
  function Known(a: seq<Instruction>): map<string, Option<nat>> {
    if a == [] then map[] else Learn(Known(a[..|a| - 1]), a[|a| - 1].body)
  }

  function Learn(known: map<string, Option<nat>>, body: Body): map<string, Option<nat>> {
    if !body.PlaceholderBody? then known
    else if body.name !in known || known[body.name].None? then known[body.name := body.expectedSize]
    else known
  }

  function Resize(known: map<string, Option<nat>>, body: Body): Body {
    if body.PlaceholderBody? && body.name in known then body.(expectedSize := known[body.name]) else body
  }

  lemma {:induction false} KnownComesFrom(a: seq<Instruction>, name: string)
    ensures name in Known(a) && Known(a)[name].Some? ==>
              exists i :: 0 <= i < |a| && a[i].body == PlaceholderBody(name, Known(a)[name])
    ensures name !in Known(a) || Known(a)[name].None? ==>
              forall i :: 0 <= i < |a| && a[i].body.PlaceholderBody? && a[i].body.name == name ==>
                a[i].body.expectedSize.None?
  {
    if a != [] {
      KnownComesFrom(a[..|a| - 1], name);
      assert forall i :: 0 <= i < |a| - 1 ==> a[..|a| - 1][i] == a[i];
    }
  }

  /** One more instruction fits exactly when its size agrees with what is known. */
  lemma NextSizeAgrees(a: seq<Instruction>, i: nat)
    requires i < |a| && ConsistentSizes(a[..i])
    ensures ConsistentSizes(a[..i + 1]) <==>
            !(a[i].body.PlaceholderBody? && a[i].body.name in Known(a[..i]) && Known(a[..i])[a[i].body.name].Some?
              && a[i].body.expectedSize.Some?
              && Known(a[..i])[a[i].body.name] != a[i].body.expectedSize)
  {
    var before, after := a[..i], a[..i + 1];
    assert after == before + [a[i]];
    if a[i].body.PlaceholderBody? {
      var name := a[i].body.name;
      KnownComesFrom(before, name);
      if name in Known(before) && Known(before)[name].Some? {
        var j :| 0 <= j < |before| && before[j].body == PlaceholderBody(name, Known(before)[name]);
        assert after[j] == before[j] && after[i] == a[i];
        forall p | 0 <= p < i ensures SizesAgree(before[p].body, before[j].body) {
        }
      }
    }
    forall p, q | 0 <= p < i && 0 <= q < i ensures SizesAgree(after[p].body, after[q].body) {
      assert after[p] == before[p] && after[q] == before[q];
    }
  }

  // ----- the result -----

  /** The instruction kept by an output is the first of its sources. */
  predicate IsFirst(first: nat, sources: seq<nat>) {
    first in sources && forall x :: x in sources ==> first <= x
  }

  predicate SameBodies(a: seq<Instruction>, sources: seq<nat>)
    requires forall k :: 0 <= k < |sources| ==> sources[k] < |a|
  {
    forall x, y :: x in sources && y in sources ==> a[x].body == a[y].body
  }

  /** An output keeps the typed body of its sources when they agree on it and one of them is written as the output. */
  ghost predicate KeepsBody(a: seq<Instruction>, sources: seq<nat>, text: string, reread: Body,
                            serialize: Instruction -> string, body: Body)
    requires forall k :: 0 <= k < |sources| ==> sources[k] < |a|
  {
    if sources != [] && SameBodies(a, sources) && exists x :: x in sources && serialize(a[x]) == text
    then forall x :: x in sources ==> body == Resize(Known(a), a[x].body)
    else body == Resize(Known(a), reread)
  }

  /** One output: from its sources it takes identity, region and every origin; without sources both are new. */
  ghost predicate Conserves(a: seq<Instruction>, sources: seq<nat>, text: string, out: Instruction)
    requires forall k :: 0 <= k < |sources| ==> sources[k] < |a|
  {
    && out.legacyEncoding == Some(text) && Ascending(out.origins)
    && (sources == [] ==>
          && |out.origins| == 1
          && (forall i :: 0 <= i < |a| ==>
              a[i].id < out.id && (forall o :: o in Effective(a[i]) ==> o < out.origins[0])))
    && (sources != [] ==>
          && Elements(out.origins) == OriginsOf(a, sources)
          && (exists first: nat :: IsFirst(first, sources) && out.id == a[first].id)
          && (forall x :: x in sources ==> out.region == a[x].region))
  }

  ghost predicate Rewritten(a: seq<Instruction>, texts: seq<string>, newToOld: seq<seq<nat>>, out: seq<Instruction>) {
    && |out| == |texts| == |newToOld| && Acceptable(a, newToOld) && UniqueIds(out)
    && (forall p :: 0 <= p < |out| ==> Conserves(a, newToOld[p], texts[p], out[p]))
  }

  // ----- the loops -----

  datatype Inputs = Inputs(ids: Supply, origins: Supply, known: map<string, Option<nat>>)

  lemma {:induction false} RecordedConcat(ids: seq<nat>, more: seq<nat>)
    requires |more| > 0
    ensures Recorded(ids + more) == Record(Recorded(ids + more[..|more| - 1]), more[|more| - 1])
  {
    assert (ids + more)[..|ids + more| - 1] == ids + more[..|more| - 1];
  }

  lemma PrefixFails(a: seq<Instruction>, i: nat)
    requires i <= |a|
    ensures UniqueIds(a) ==> UniqueIds(a[..i])
    ensures ConsistentSizes(a) ==> ConsistentSizes(a[..i])
  {
    assert forall k :: 0 <= k < i ==> a[..i][k] == a[k];
  }

  /** The first pass: which identities are free, and what is known of placeholder sizes. */
  method ScanInputs(a: seq<Instruction>) returns (r: Result<Inputs, RewriteError>)
    requires IdsFit(a)
    ensures r.Ok? <==> UniqueIds(a) && ConsistentSizes(a)
    ensures r.Ok? ==> r.value == Inputs(Recorded(Ids(a)), Recorded(AllOrigins(a)), Known(a))
    ensures r.Err? ==> r.error != DuplicateOutputIds
  {
    hide UniqueIds, ConsistentSizes, Known, Learn, Recorded, Record, AllOrigins;
    var ids, origins: Supply := Supply(1, true), Supply(1, true);
    var known: map<string, Option<nat>> := map[];
    var seen: set<nat> := {};
    NothingScanned(a);
    for i := 0 to |a|
      invariant UniqueIds(a[..i]) && ConsistentSizes(a[..i]) && forall x: nat :: x in seen <==> x in Ids(a[..i])
      invariant ids == Recorded(Ids(a[..i])) && origins == Recorded(AllOrigins(a[..i])) && known == Known(a[..i])
    {
      var instruction := a[i];
      PrefixFails(a, i + 1);
      NextIdIsNew(a, i, seen);
      if instruction.id in seen {
        return Err(DuplicateInputIds);
      }
      seen := seen + {instruction.id};
      ScanStep(a, i);
      ids := Record(ids, instruction.id);
      var effective := if instruction.origins == [] then [instruction.id] else instruction.origins;
      ghost var all := AllOrigins(a[..i]);
      assert all + effective[..0] == all;
      for k := 0 to |effective|
        invariant origins == Recorded(all + effective[..k])
      {
        RecordedConcat(all, effective[..k + 1]);
        assert effective[..k + 1][..k] == effective[..k];
        origins := Record(origins, effective[k]);
      }
      assert effective[..|effective|] == effective;
      NextSizeAgrees(a, i);
      if instruction.body.PlaceholderBody? && instruction.body.name in known && known[instruction.body.name].Some? &&
         instruction.body.expectedSize.Some? &&
         known[instruction.body.name] != instruction.body.expectedSize {
        return Err(ConflictingSizes);
      }
      known := Learn(known, instruction.body);
    }
    assert a[..|a|] == a;
    return Ok(Inputs(ids, origins, known));
  }

  lemma NothingScanned(a: seq<Instruction>)
    ensures UniqueIds(a[..0]) && ConsistentSizes(a[..0]) && Ids(a[..0]) == []
    ensures Recorded(Ids(a[..0])) == Supply(1, true) && Recorded(AllOrigins(a[..0])) == Supply(1, true)
    ensures Known(a[..0]) == map[]
  {
  }

  lemma ScanStep(a: seq<Instruction>, i: nat)
    requires i < |a|
    ensures Recorded(Ids(a[..i + 1])) == Record(Recorded(Ids(a[..i])), a[i].id)
    ensures AllOrigins(a[..i + 1]) == AllOrigins(a[..i]) + if a[i].origins == [] then [a[i].id] else a[i].origins
    ensures Known(a[..i + 1]) == Learn(Known(a[..i]), a[i].body)
  {
    assert a[..i + 1][..i] == a[..i];
    assert Ids(a[..i + 1])[..i] == Ids(a[..i]);
  }

  datatype Gathered = Gathered(origins: set<nat>, allBodiesEqual: bool, encodingMatches: bool)

  /** Collect the sources of one output, in ascending order. */
  method Gather(a: seq<Instruction>, sources: seq<nat>, claimed: set<nat>, text: string,
                serialize: Instruction -> string)
      returns (r: Result<Gathered, RewriteError>)
    requires Distinct(sources)
    ensures r.Ok? <==> SourcesFit(a, sources) && forall x :: x in sources ==> x !in claimed
    ensures r.Ok? ==> r.value.origins == OriginsOf(a, sources)
    ensures r.Ok? && sources != [] ==> (r.value.allBodiesEqual <==> SameBodies(a, sources))
    ensures r.Ok? ==> (r.value.encodingMatches <==> exists x :: x in sources && serialize(a[x]) == text)
    ensures r.Err? ==> r.error != DuplicateOutputIds
  {
    hide OriginsOf, Effective;
    var origins: set<nat> := {};
    var allBodiesEqual, encodingMatches := true, false;
    NoOrigins(a);
    for k := 0 to |sources|
      invariant forall j :: 0 <= j < k ==> sources[j] < |a| && sources[j] !in claimed
      invariant forall j :: 0 <= j < k ==> a[sources[j]].region == a[sources[0]].region
      invariant origins == OriginsOf(a, sources[..k])
      invariant allBodiesEqual <==> forall j :: 0 <= j < k ==> a[sources[j]].body == a[sources[0]].body
      invariant encodingMatches <==> exists j :: 0 <= j < k && serialize(a[sources[j]]) == text
    {
      var x := sources[k];
      assert x in sources;
      if x >= |a| {
        return Err(InvalidSource);
      }
      if x in claimed {
        return Err(SharedSource);
      }
      if a[x].region != a[sources[0]].region {
        return Err(MixedRegions);
      }
      allBodiesEqual := allBodiesEqual && a[x].body == a[sources[0]].body;
      encodingMatches := encodingMatches || serialize(a[x]) == text;
      OriginsSnoc(a, sources[..k], x);
      assert sources[..k + 1] == sources[..k] + [x];
      origins := origins + Effective(a[x]);
    }
    assert sources[..|sources|] == sources;
    return Ok(Gathered(origins, allBodiesEqual, encodingMatches));
  }

  lemma NoOrigins(a: seq<Instruction>)
    ensures OriginsOf(a, []) == {}
  {
  }

  lemma {:induction false} OriginsSnoc(a: seq<Instruction>, sources: seq<nat>, x: nat)
    requires x < |a| && forall k :: 0 <= k < |sources| ==> sources[k] < |a|
    ensures OriginsOf(a, sources + [x]) == OriginsOf(a, sources) + Effective(a[x])
  {
    if sources != [] {
      assert (sources + [x])[1..] == sources[1..] + [x];
      OriginsSnoc(a, sources[1..], x);
    } else {
      assert ([] + [x])[1..] == [];
    }
  }

  lemma {:induction false} OriginMembers(a: seq<Instruction>, sources: seq<nat>, o: nat)
    requires forall k :: 0 <= k < |sources| ==> sources[k] < |a|
    ensures o in OriginsOf(a, sources) <==> exists x :: x in sources && o in Effective(a[x])
  {
    if sources != [] {
      OriginMembers(a, sources[1..], o);
      assert forall x :: x in sources <==> x == sources[0] || x in sources[1..];
    }
  }

  predicate SameMembers(s: seq<nat>, t: seq<nat>) {
    (forall x :: x in s ==> x in t) && (forall x :: x in t ==> x in s)
  }

  lemma SameMembersFit(a: seq<Instruction>, s: seq<nat>, t: seq<nat>)
    requires SameMembers(s, t) && Distinct(t) && SourcesFit(a, s)
    ensures SourcesFit(a, t)
  {
    assert forall k :: 0 <= k < |t| ==> t[k] in s;
    assert forall x, y :: x in s && y in s ==> x < |a| && y < |a| && a[x].region == a[y].region;
  }

  lemma SameMembersOrigins(a: seq<Instruction>, s: seq<nat>, t: seq<nat>)
    requires SameMembers(s, t) && SourcesFit(a, s) && SourcesFit(a, t)
    ensures OriginsOf(a, s) == OriginsOf(a, t)
  {
    hide SourcesFit, Effective;
    Within(a, s);
    Within(a, t);
    forall o: nat ensures o in OriginsOf(a, s) <==> o in OriginsOf(a, t) {
      OriginMembers(a, s, o);
      OriginMembers(a, t, o);
    }
  }

  lemma Within(a: seq<Instruction>, s: seq<nat>)
    requires SourcesFit(a, s)
    ensures forall k :: 0 <= k < |s| ==> s[k] < |a|
  {
  }

  lemma SortedMembers(sources: seq<nat>, sorted: seq<nat>)
    requires sorted == Listed(Elements(sources))
    ensures SameMembers(sorted, sources) && Distinct(sorted)
    ensures sorted == [] <==> sources == []
    ensures sorted != [] ==> IsFirst(sorted[0], sources) && sorted[0] in Elements(sources)
  {
    hide Listed;
    forall x: nat ensures x in sorted <==> x in sources {
      assert x in Elements(sorted) <==> x in Elements(sources);
    }
    assert sources != [] ==> sources[0] in sorted;
    assert sorted != [] ==> sorted[0] in sources;
  }

  /** Sorting the sources changes none of what is asked of them. */
  lemma SortedSources(a: seq<Instruction>, sources: seq<nat>, sorted: seq<nat>)
    requires Distinct(sources) && sorted == Listed(Elements(sources))
    ensures SameMembers(sorted, sources) && Distinct(sorted)
    ensures sorted == [] <==> sources == []
    ensures SourcesFit(a, sorted) <==> SourcesFit(a, sources)
    ensures SourcesFit(a, sources) ==> OriginsOf(a, sorted) == OriginsOf(a, sources)
    ensures sorted != [] ==> IsFirst(sorted[0], sources) && sorted[0] in Elements(sources)
  {
    SortedMembers(sources, sorted);
    hide SourcesFit, OriginsOf, Listed, IsFirst, Distinct, Elements;
    assert SameMembers(sources, sorted);
    if SourcesFit(a, sources) {
      SameMembersFit(a, sources, sorted);
      SameMembersOrigins(a, sources, sorted);
    }
    if SourcesFit(a, sorted) {
      SameMembersFit(a, sorted, sources);
    }
  }

  ghost predicate ClaimedBy(newToOld: seq<seq<nat>>, claimed: set<nat>) {
    forall x: nat :: x in claimed <==> exists q :: 0 <= q < |newToOld| && x in newToOld[q]
  }

  lemma ClaimStep(before: seq<seq<nat>>, claimed: set<nat>, sources: seq<nat>)
    requires Unshared(before) && ClaimedBy(before, claimed)
    ensures Unshared(before + [sources]) <==> forall x :: x in sources ==> x !in claimed
    ensures ClaimedBy(before + [sources], claimed + Elements(sources))
  {
    var after := before + [sources];
    assert after[|before|] == sources;
    if Unshared(after) {
      forall q, x | 0 <= q < |before| && x in before[q] ensures x !in sources {
        assert x in after[q] && after[|before|] == sources;
      }
    }
    forall x: nat
      ensures x in claimed + Elements(sources) <==> exists q :: 0 <= q < |after| && x in after[q]
    {
      if x in claimed {
        var q :| 0 <= q < |before| && x in before[q];
        assert x in after[q];
      }
      if x in sources {
        assert x in after[|before|];
      }
      if q :| 0 <= q < |after| && x in after[q] {
        if q < |before| {
          assert x in before[q];
        }
      }
    }
    if forall x :: x in sources ==> x !in claimed {
      forall i, j, x | 0 <= i < j < |after| && x in after[i] ensures x !in after[j] {
        assert after[i] == before[i];
        if j < |before| {
          assert after[j] == before[j];
        }
      }
    }
  }

  /** What is left of a supply after k draws. */
  ghost predicate Drawn(base: Supply, s: Supply, k: nat) {
    k <= Room(base) && Room(s) == Room(base) - k && base.next <= s.next <= MAX_ID
  }

  lemma DrawOne(base: Supply, s: Supply, k: nat)
    requires Drawn(base, s, k)
    ensures s.available <==> k + 1 <= Room(base)
    ensures s.available ==> Drawn(base, Draw(s), k + 1)
    ensures s.available && Draw(s).available ==> s.next < Draw(s).next
  {
  }

  /** Where output identities come from: a claimed input, or the supply above all inputs. */
  ghost predicate IdsAccounted(a: seq<Instruction>, out: seq<Instruction>, claimed: set<nat>, s: Supply, base: nat) {
    forall p :: 0 <= p < |out| ==>
      (exists x :: x in claimed && x < |a| && out[p].id == a[x].id) ||
      (base <= out[p].id && (s.available ==> out[p].id < s.next))
  }

  lemma KeptIdIsNew(a: seq<Instruction>, out: seq<Instruction>, claimed: set<nat>, s: Supply, base: nat, x: nat,
                    next: Instruction)
    requires UniqueIds(a) && UniqueIds(out) && IdsAccounted(a, out, claimed, s, base)
    requires x < |a| && x !in claimed && next.id == a[x].id < base
    ensures UniqueIds(out + [next]) && forall p :: 0 <= p < |out| ==> out[p].id != next.id
    ensures forall more: set<nat> :: x in more && claimed <= more ==> IdsAccounted(a, out + [next], more, s, base)
  {
    forall p | 0 <= p < |out| ensures out[p].id != next.id {
      if y :| y in claimed && y < |a| && out[p].id == a[y].id {
        assert y != x;
        if y < x {
          assert a[y].id != a[x].id;
        } else {
          assert a[x].id != a[y].id;
        }
      }
    }
    forall more: set<nat> | x in more && claimed <= more ensures IdsAccounted(a, out + [next], more, s, base) {
      forall p | 0 <= p < |out| + 1
        ensures (exists y :: y in more && y < |a| && (out + [next])[p].id == a[y].id) ||
                (base <= (out + [next])[p].id && (s.available ==> (out + [next])[p].id < s.next))
      {
        if p == |out| {
          assert x in more && (out + [next])[p].id == a[x].id;
        } else {
          assert (out + [next])[p] == out[p];
        }
      }
    }
  }

  lemma DrawnIdIsNew(a: seq<Instruction>, out: seq<Instruction>, claimed: set<nat>, s: Supply, base: nat,
                     next: Instruction)
    requires UniqueIds(out) && IdsAccounted(a, out, claimed, s, base)
    requires s.available && next.id == s.next >= base && forall i :: 0 <= i < |a| ==> a[i].id < base
    requires Draw(s).available ==> s.next < Draw(s).next
    ensures UniqueIds(out + [next]) && forall p :: 0 <= p < |out| ==> out[p].id != next.id
    ensures IdsAccounted(a, out + [next], claimed, Draw(s), base)
  {
    forall p | 0 <= p < |out| + 1
      ensures (exists y :: y in claimed && y < |a| && (out + [next])[p].id == a[y].id) ||
              (base <= (out + [next])[p].id && (Draw(s).available ==> (out + [next])[p].id < Draw(s).next))
    {
      if p < |out| {
        assert (out + [next])[p] == out[p];
      }
    }
  }

  lemma {:induction false} OriginsBelow(a: seq<Instruction>, i: nat, o: nat)
    requires i < |a| && o in Effective(a[i])
    ensures o in AllOrigins(a)
  {
    if i < |a| - 1 {
      assert a[..|a| - 1][i] == a[i];
      OriginsBelow(a[..|a| - 1], i, o);
    } else if a[i].origins != [] {
      assert o in Elements(a[i].origins);
    }
  }

  lemma {:induction false} OriginsFit(a: seq<Instruction>)
    requires IdsFit(a)
    ensures forall k :: 0 <= k < |AllOrigins(a)| ==> AllOrigins(a)[k] <= MAX_ID
  {
    if a != [] {
      OriginsFit(a[..|a| - 1]);
    }
  }

  /** Everything in use lies below the supplies. */
  lemma SuppliesAreAbove(a: seq<Instruction>)
    requires IdsFit(a)
    ensures var s, t := Recorded(Ids(a)), Recorded(AllOrigins(a));
            && 1 <= s.next <= MAX_ID && 1 <= t.next <= MAX_ID
            && (s.available ==> forall i :: 0 <= i < |a| ==> a[i].id < s.next)
            && (t.available ==> forall i, o :: 0 <= i < |a| && o in Effective(a[i]) ==> o < t.next)
  {
    RecordedIsAbove(Ids(a));
    OriginsFit(a);
    RecordedIsAbove(AllOrigins(a));
    forall i | 0 <= i < |a| && Recorded(Ids(a)).available ensures a[i].id < Recorded(Ids(a)).next {
      assert Ids(a)[i] == a[i].id;
    }
    forall i, o | 0 <= i < |a| && o in Effective(a[i]) && Recorded(AllOrigins(a)).available
      ensures o < Recorded(AllOrigins(a)).next
    {
      OriginsBelow(a, i, o);
    }
  }

  /** What holds after the outputs before p are written. */
  ghost predicate Progress(a: seq<Instruction>, texts: seq<string>, done: seq<seq<nat>>, imported: seq<Instruction>,
                           serialize: Instruction -> string, out: seq<Instruction>) {
    && |out| == |done| <= |texts| == |imported| && Unshared(done) && UniqueIds(out)
    && (forall p :: 0 <= p < |out| ==> WrittenAs(a, done[p], texts[p], imported[p].body, serialize, out[p]))
  }

  ghost predicate WrittenAs(a: seq<Instruction>, sources: seq<nat>, text: string, reread: Body,
                            serialize: Instruction -> string, out: Instruction) {
    SourcesFit(a, sources) && Conserves(a, sources, text, out) &&
        KeepsBody(a, sources, text, reread, serialize, out.body)
  }

  lemma {:induction false} SyntheticSnoc(done: seq<seq<nat>>, sources: seq<nat>)
    ensures Synthetic(done + [sources]) == Synthetic(done) + if sources == [] then 1 else 0
  {
    assert (done + [sources])[..|done|] == done;
  }

  lemma {:induction false} SyntheticGrows(newToOld: seq<seq<nat>>, p: nat)
    requires p <= |newToOld|
    ensures Synthetic(newToOld[..p]) <= Synthetic(newToOld)
    decreases |newToOld| - p
  {
    if p < |newToOld| {
      assert newToOld[..p + 1] == newToOld[..p] + [newToOld[p]];
      SyntheticSnoc(newToOld[..p], newToOld[p]);
      SyntheticGrows(newToOld, p + 1);
    } else {
      assert newToOld[..p] == newToOld;
    }
  }

  lemma UnsharedPrefix(newToOld: seq<seq<nat>>, p: nat)
    requires p <= |newToOld|
    ensures Unshared(newToOld) ==> Unshared(newToOld[..p])
  {
    assert forall q :: 0 <= q < p ==> newToOld[..p][q] == newToOld[q];
  }

  lemma ProgressStep(a: seq<Instruction>, texts: seq<string>, done: seq<seq<nat>>, imported: seq<Instruction>,
                     serialize: Instruction -> string, out: seq<Instruction>, sources: seq<nat>, next: Instruction)
    requires Progress(a, texts, done, imported, serialize, out) && |done| < |texts|
    requires Unshared(done + [sources]) && UniqueIds(out + [next])
    requires WrittenAs(a, sources, texts[|done|], imported[|done|].body, serialize, next)
    ensures Progress(a, texts, done + [sources], imported, serialize, out + [next])
  {
    hide WrittenAs, UniqueIds, Unshared;
  }

  /** What an output made from sources satisfies. */
  lemma KeptOutput(a: seq<Instruction>, sources: seq<nat>, sorted: seq<nat>, text: string, reread: Body,
                   serialize: Instruction -> string, g: Gathered, out: Instruction)
    requires SourcesFit(a, sources) && sources != [] && sorted == Listed(Elements(sources))
    requires sorted != [] && forall k :: 0 <= k < |sorted| ==> sorted[k] < |a|
    requires g.origins == OriginsOf(a, sorted)
    requires g.allBodiesEqual <==> SameBodies(a, sorted)
    requires g.encodingMatches <==> exists x :: x in sorted && serialize(a[x]) == text
    requires out.origins == Listed(g.origins) && out.legacyEncoding == Some(text)
    requires out.id == a[sorted[0]].id && out.region == a[sorted[0]].region
    requires out.body == Resize(Known(a), if g.allBodiesEqual && g.encodingMatches then a[sorted[0]].body else reread)
    ensures WrittenAs(a, sources, text, reread, serialize, out)
  {
    SortedSources(a, sources, sorted);
    hide OriginsOf, Known, Resize, Listed;
    var first := sorted[0];
    assert IsFirst(first, sources);
    forall x | x in sources ensures a[x].region == a[first].region {
      assert x in sorted;
    }
  }

  lemma DrawnOutput(a: seq<Instruction>, text: string, reread: Body, serialize: Instruction -> string, out: Instruction,
                    id: nat, origin: nat)
    requires out.origins == [origin] && out.legacyEncoding == Some(text) && out.id == id
    requires out.body == Resize(Known(a), reread)
    requires forall i :: 0 <= i < |a| ==> a[i].id < id
    requires forall i, o :: 0 <= i < |a| && o in Effective(a[i]) ==> o < origin
    ensures WrittenAs(a, [], text, reread, serialize, out)
  {
  }

  /** The rewrite for any reading and writing of instruction text. */
  method RewriteImported(a: seq<Instruction>, texts: seq<string>, newToOld: seq<seq<nat>>, imported: seq<Instruction>,
                         serialize: Instruction -> string) returns (r: Result<seq<Instruction>, RewriteError>)
    requires IdsFit(a) && |imported| == |texts|
    ensures r.Ok? <==> |newToOld| == |texts| && Acceptable(a, newToOld)
    ensures r.Ok? ==> Rewritten(a, texts, newToOld, r.value)
    ensures r.Ok? ==> Progress(a, texts, newToOld, imported, serialize, r.value)
    ensures r.Err? ==> r.error != DuplicateOutputIds
  {
    hide UniqueIds, ConsistentSizes, SourcesFit, Unshared, Synthetic, Recorded, Known, Resize, WrittenAs, IdsAccounted;
    hide Drawn, OriginsOf, Draw, Room, ClaimedBy, Effective, Progress, Acceptable, Rewritten, IsFirst, SameMembers,
      SameBodies;
    hide Listed, Conserves, KeepsBody;
    if |newToOld| != |texts| {
      return Err(SizeMismatch);
    }
    var scan := ScanInputs(a);
    AcceptableNeeds(a, newToOld);
    if scan.Err? {
      return Err(scan.error);
    }
    var ids, origins := scan.value.ids, scan.value.origins;
    var known := scan.value.known;
    SuppliesAreAbove(a);
    ghost var idBase := if ids.available then ids.next else MAX_ID + 1;
    ghost var ids0, origins0 := ids, origins;
    var claimed: set<nat> := {};
    var outputIds: set<nat> := {};
    var out: seq<Instruction> := [];
    StartProgress(a, texts, newToOld, imported, serialize, ids, origins, idBase);
    for p := 0 to |texts|
      invariant Progress(a, texts, newToOld[..p], imported, serialize, out)
      invariant |out| == p && UniqueIds(out) && Unshared(newToOld[..p]) && ClaimedBy(newToOld[..p], claimed)
      invariant outputIds == set i | i in out :: i.id
      invariant IdsAccounted(a, out, claimed, ids, idBase)
      invariant Drawn(ids0, ids, Synthetic(newToOld[..p])) && Drawn(origins0, origins, Synthetic(newToOld[..p]))
    {
      ghost var done := newToOld[..p];
      assert newToOld[..p + 1] == done + [newToOld[p]];
      AcceptableNeedsAt(a, newToOld, p);
      SyntheticSnoc(done, newToOld[p]);
      var sources := newToOld[p];
      if !Distinct(sources) {
        RepeatedDoesNotFit(a, sources);
        return Err(RepeatedSource);
      }
      var sorted := Listed(Elements(sources));
      SortedSources(a, sources, sorted);
      ClaimStep(done, claimed, sources);
      var g := Gather(a, sorted, claimed, texts[p], serialize);
      if g.Err? {
        return Err(g.error);
      }
      var next: Instruction;
      if sorted != [] {
        Within(a, sorted);
        var first := a[sorted[0]];
        var body := if g.value.allBodiesEqual && g.value.encodingMatches then first.body else imported[p].body;
        next := Instruction(first.id, Resize(known, body), first.region, Listed(g.value.origins), Some(texts[p]));
        KeptOutput(a, sources, sorted, texts[p], imported[p].body, serialize, g.value, next);
        KeptIdFits(a, ids0, idBase, sorted[0]);
        KeptIdIsNew(a, out, claimed, ids, idBase, sorted[0], next);
      } else {
        DrawOne(ids0, ids, Synthetic(done));
        DrawOne(origins0, origins, Synthetic(done));
        if !ids.available || !origins.available {
          return Err(IdentityOverflow);
        }
        next := Instruction(ids.next, Resize(known, imported[p].body), imported[p].region, [origins.next],
                            Some(texts[p]));
        StillAbove(a, ids0, ids, origins0, origins, Synthetic(done));
        DrawnOutput(a, texts[p], imported[p].body, serialize, next, ids.next, origins.next);
        DrawnIdIsNew(a, out, claimed, ids, idBase, next);
        assert claimed + Elements(sources) == claimed;
        ids := Draw(ids);
        origins := Draw(origins);
      }
      if next.id in outputIds {
        assert false;
        return Err(DuplicateOutputIds);
      }
      outputIds := outputIds + {next.id};
      claimed := claimed + Elements(sources);
      ProgressStep(a, texts, done, imported, serialize, out, sources, next);
      out := out + [next];
    }
    assert newToOld[..|texts|] == newToOld;
    FinalProgress(a, texts, newToOld, imported, serialize, out, ids0, ids, origins0, origins);
    return Ok(out);
  }

  lemma AcceptableNeeds(a: seq<Instruction>, newToOld: seq<seq<nat>>)
    ensures Acceptable(a, newToOld) ==> UniqueIds(a) && ConsistentSizes(a)
  {
  }

  lemma AcceptableNeedsAt(a: seq<Instruction>, newToOld: seq<seq<nat>>, p: nat)
    requires p < |newToOld|
    ensures Acceptable(a, newToOld) ==>
              && SourcesFit(a, newToOld[p]) && Unshared(newToOld[..p + 1])
              && Synthetic(newToOld[..p + 1]) <= Room(Recorded(Ids(a)))
              && Synthetic(newToOld[..p + 1]) <= Room(Recorded(AllOrigins(a)))
  {
    hide SourcesFit, Unshared, Synthetic, Room, Recorded;
    UnsharedPrefix(newToOld, p + 1);
    SyntheticGrows(newToOld, p + 1);
  }

  lemma StartProgress(a: seq<Instruction>, texts: seq<string>, newToOld: seq<seq<nat>>, imported: seq<Instruction>,
                      serialize: Instruction -> string, ids: Supply, origins: Supply, base: nat)
    requires |imported| == |texts| && ids.next <= MAX_ID && origins.next <= MAX_ID
    ensures Progress(a, texts, newToOld[..0], imported, serialize, []) && ClaimedBy(newToOld[..0], {})
    ensures IdsAccounted(a, [], {}, ids, base) && Synthetic(newToOld[..0]) == 0
    ensures Drawn(ids, ids, 0) && Drawn(origins, origins, 0) && UniqueIds([]) && Unshared(newToOld[..0])
  {
  }

  lemma RepeatedDoesNotFit(a: seq<Instruction>, sources: seq<nat>)
    requires !Distinct(sources)
    ensures !SourcesFit(a, sources)
  {
  }

  lemma KeptIdFits(a: seq<Instruction>, ids: Supply, base: nat, x: nat)
    requires IdsFit(a) && x < |a| && base == if ids.available then ids.next else MAX_ID + 1
    requires ids.available ==> forall i :: 0 <= i < |a| ==> a[i].id < ids.next
    ensures a[x].id < base
  {
  }

  lemma StillAbove(a: seq<Instruction>, ids0: Supply, ids: Supply, origins0: Supply, origins: Supply, k: nat)
    requires Drawn(ids0, ids, k) && Drawn(origins0, origins, k) && ids.available && origins.available
    requires ids0.available ==> forall i :: 0 <= i < |a| ==> a[i].id < ids0.next
    requires origins0.available ==> forall i, o :: 0 <= i < |a| && o in Effective(a[i]) ==> o < origins0.next
    ensures ids0.available && origins0.available && ids.next >= ids0.next
    ensures forall i :: 0 <= i < |a| ==> a[i].id < ids.next
    ensures forall i, o :: 0 <= i < |a| && o in Effective(a[i]) ==> o < origins.next
  {
  }

  lemma FinalProgress(a: seq<Instruction>, texts: seq<string>, newToOld: seq<seq<nat>>, imported: seq<Instruction>,
                      serialize: Instruction -> string, out: seq<Instruction>, ids0: Supply, ids: Supply,
                      origins0: Supply, origins: Supply)
    requires Progress(a, texts, newToOld, imported, serialize, out) && |newToOld| == |texts|
    requires UniqueIds(a) && ConsistentSizes(a) && ids0 == Recorded(Ids(a)) && origins0 == Recorded(AllOrigins(a))
    requires Drawn(ids0, ids, Synthetic(newToOld)) && Drawn(origins0, origins, Synthetic(newToOld))
    ensures Acceptable(a, newToOld) && Rewritten(a, texts, newToOld, out)
  {
    hide Conserves, KeepsBody, Recorded, Synthetic, UniqueIds, ConsistentSizes, Unshared;
    forall p | 0 <= p < |newToOld| ensures SourcesFit(a, newToOld[p]) && Conserves(a, newToOld[p], texts[p], out[p]) {
      assert WrittenAs(a, newToOld[p], texts[p], imported[p].body, serialize, out[p]);
    }
  }

  /** What a rewrite makes of each output, the re-imported text being the reading of last resort. */
  ghost predicate Written(a: seq<Instruction>, texts: seq<string>, newToOld: seq<seq<nat>>, out: seq<Instruction>) {
    |newToOld| == |texts| && Progress(a, texts, newToOld, Import(texts), Serialize, out)
  }

  method Rewrite(a: seq<Instruction>, texts: seq<string>, newToOld: seq<seq<nat>>)
      returns (r: Result<seq<Instruction>, RewriteError>)
    requires IdsFit(a)
    ensures r.Ok? <==> |newToOld| == |texts| && Acceptable(a, newToOld)
    ensures r.Ok? ==> Rewritten(a, texts, newToOld, r.value) && Written(a, texts, newToOld, r.value)
    ensures r.Err? ==> r.error != DuplicateOutputIds
  {
    hide Acceptable, Rewritten, Progress, IdsFit, Import;
    if |newToOld| != |texts| {
      return Err(SizeMismatch);
    }
    var imported := ImportScript(texts);
    r := RewriteImported(a, texts, newToOld, imported, Serialize);
  }

  // ----- provenance from a position map -----

  lemma {:induction false} OneSource(oldToNew: seq<Option<nat>>, newPC: nat, oldPC: nat)
    requires oldPC < |oldToNew| && oldToNew[oldPC] == Some(newPC)
    requires forall i :: 0 <= i < |oldToNew| && oldToNew[i] == Some(newPC) ==> i == oldPC
    ensures SourcesOf(oldToNew, newPC) == [oldPC]
  {
    var s := SourcesOf(oldToNew, newPC);
    assert oldPC in s;
    forall k | 0 <= k < |s| ensures s[k] == oldPC {
      assert s[k] in s;
    }
    assert Elements(s) == {oldPC};
    DistinctSize(s);
  }

  lemma {:induction false} NoneSynthetic(m: seq<seq<nat>>)
    requires forall p :: 0 <= p < |m| ==> m[p] != []
    ensures Synthetic(m) == 0
  {
    if m != [] {
      NoneSynthetic(m[..|m| - 1]);
    }
  }

  /** Nothing moved and nothing merged is always acceptable. */
  lemma OneSourceEach(a: seq<Instruction>, newToOld: seq<seq<nat>>)
    requires UniqueIds(a) && ConsistentSizes(a) && |newToOld| == |a|
    requires forall p :: 0 <= p < |newToOld| ==> newToOld[p] == [p]
    ensures Acceptable(a, newToOld)
  {
    hide UniqueIds, ConsistentSizes, Room, Recorded;
    NoneSynthetic(newToOld);
  }

  // ----- a rewritten artifact can be rewritten again -----

  /** The size an output's placeholder carries is the one known for its name. */
  predicate SizeIsKnown(known: map<string, Option<nat>>, body: Body) {
    body.PlaceholderBody? ==>
      body.expectedSize == if body.name in known then known[body.name] else None
  }

  lemma OutputSize(a: seq<Instruction>, sources: seq<nat>, text: string, reread: Body, serialize: Instruction -> string,
                   out: Instruction)
    requires WrittenAs(a, sources, text, reread, serialize, out)
    requires reread.PlaceholderBody? ==> reread.expectedSize.None?
    ensures SizeIsKnown(Known(a), out.body)
  {
    hide Conserves, Known, SameBodies;
    Within(a, sources);
    if sources != [] && SameBodies(a, sources) && exists x :: x in sources && serialize(a[x]) == text {
      var body := a[sources[0]].body;
      assert sources[0] in sources && out.body == Resize(Known(a), body);
      if body.PlaceholderBody? {
        KnownComesFrom(a, body.name);
      }
    }
  }

  lemma RewriteKeepsSizes(a: seq<Instruction>, texts: seq<string>, newToOld: seq<seq<nat>>, out: seq<Instruction>)
    requires Written(a, texts, newToOld, out)
    ensures ConsistentSizes(out)
  {
    hide WrittenAs, Known, Import;
    ImportedReturns(texts);
    forall p | 0 <= p < |out| ensures SizeIsKnown(Known(a), out[p].body) {
      OutputSize(a, newToOld[p], texts[p], Import(texts)[p].body, Serialize, out[p]);
    }
  }

  lemma {:induction false} OriginsOfFit(a: seq<Instruction>, sources: seq<nat>)
    requires IdsFit(a) && forall k :: 0 <= k < |sources| ==> sources[k] < |a|
    ensures forall o :: o in OriginsOf(a, sources) ==> o <= MAX_ID
  {
    if sources != [] {
      OriginsOfFit(a, sources[1..]);
    }
  }

  lemma RewriteKeepsIdsSmall(a: seq<Instruction>, texts: seq<string>, newToOld: seq<seq<nat>>, out: seq<Instruction>)
    requires IdsFit(a) && Written(a, texts, newToOld, out)
    requires forall p :: 0 <= p < |newToOld| ==> newToOld[p] != []
    ensures IdsFit(out)
  {
    hide KeepsBody, OriginsOf, UniqueIds, Unshared;
    forall p | 0 <= p < |out|
      ensures out[p].id <= MAX_ID && forall k :: 0 <= k < |out[p].origins| ==> out[p].origins[k] <= MAX_ID
    {
      assert WrittenAs(a, newToOld[p], texts[p], Import(texts)[p].body, Serialize, out[p]);
      OriginsOfFit(a, newToOld[p]);
      forall k | 0 <= k < |out[p].origins| ensures out[p].origins[k] <= MAX_ID {
        assert out[p].origins[k] in Elements(out[p].origins);
      }
    }
  }

  /** Outputs keep the region of their sources, are written as asked, and are OP_RETURN exactly when their text is. */
  lemma OutputMirrors(a: seq<Instruction>, texts: seq<string>, newToOld: seq<seq<nat>>, out: seq<Instruction>, p: nat)
    requires Written(a, texts, newToOld, out) && p < |out| && newToOld[p] != [] && ReturnsAreTyped(a)
    ensures forall x :: x in newToOld[p] ==> x < |a| && out[p].region == a[x].region
    ensures Serialize(out[p]) == texts[p]
    ensures out[p].region == Executable ==> (IsReturn(out[p]) <==> IsReturnText(texts[p]))
  {
    hide IsReturnText, Import, Known, OriginsOf, UniqueIds, Unshared, Effective;
    var sources := newToOld[p];
    assert WrittenAs(a, sources, texts[p], Import(texts)[p].body, Serialize, out[p]);
    Within(a, sources);
    assert forall x :: x in sources ==> x < |a|;
    ImportedReturnText(texts, p);
    if SameBodies(a, sources) && exists x :: x in sources && Serialize(a[x]) == texts[p] {
      var x :| x in sources && Serialize(a[x]) == texts[p];
      assert out[p].body == Resize(Known(a), a[x].body);
    }
  }

  lemma OutputRegion(a: seq<Instruction>, texts: seq<string>, newToOld: seq<seq<nat>>, out: seq<Instruction>, p: nat,
                     x: nat)
    requires Written(a, texts, newToOld, out) && p < |out| && x in newToOld[p]
    ensures x < |a| && out[p].region == a[x].region && out[p].id in Ids(a)
  {
    hide IsReturnText, Import, Known, OriginsOf, UniqueIds, Unshared, Effective, KeepsBody;
    assert WrittenAs(a, newToOld[p], texts[p], Import(texts)[p].body, Serialize, out[p]);
    var first: nat :| IsFirst(first, newToOld[p]) && out[p].id == a[first].id;
    assert Ids(a)[first] == out[p].id;
  }

  /** An instruction that is only moved keeps its typed body, whatever its text would read as. */
  lemma OutputBody(a: seq<Instruction>, texts: seq<string>, newToOld: seq<seq<nat>>, out: seq<Instruction>, p: nat,
                   x: nat)
    requires Written(a, texts, newToOld, out) && p < |out|
    requires x in newToOld[p] && forall y: nat :: y in newToOld[p] ==> y == x
    ensures x < |a| && (Serialize(a[x]) == texts[p] ==> out[p].body == Resize(Known(a), a[x].body))
  {
    hide IsReturnText, Import, Known, OriginsOf, UniqueIds, Unshared, Effective, Conserves, Resize;
    assert WrittenAs(a, newToOld[p], texts[p], Import(texts)[p].body, Serialize, out[p]);
    Within(a, newToOld[p]);
  }

  // ----- two rewrites in a row -----

  /** The original sources behind the sources of a second rewrite. */
  function Composed(first: seq<seq<nat>>, sources: seq<nat>): seq<nat>
    requires forall k :: 0 <= k < |sources| ==> sources[k] < |first|
  {
    if sources == [] then [] else first[sources[0]] + Composed(first, sources[1..])
  }

  /** Origins the first rewrite made up for outputs without sources. */
  function MadeUp(b: seq<Instruction>, first: seq<seq<nat>>, sources: seq<nat>): set<nat>
    requires |first| == |b| && forall k :: 0 <= k < |sources| ==> sources[k] < |b|
  {
    if sources == [] then {}
    else (if first[sources[0]] == [] then Elements(b[sources[0]].origins) else {}) + MadeUp(b, first, sources[1..])
  }

  lemma {:induction false} OriginsConcat(a: seq<Instruction>, s: seq<nat>, t: seq<nat>)
    requires forall k :: 0 <= k < |s| ==> s[k] < |a|
    requires forall k :: 0 <= k < |t| ==> t[k] < |a|
    ensures OriginsOf(a, s + t) == OriginsOf(a, s) + OriginsOf(a, t)
  {
    if s == [] {
      assert s + t == t;
    } else {
      assert (s + t)[1..] == s[1..] + t;
      OriginsConcat(a, s[1..], t);
    }
  }

  /** The origins an output carries are its own, never the identity standing in for none. */
  lemma OutputOrigins(a: seq<Instruction>, sources: seq<nat>, text: string, out: Instruction)
    requires SourcesFit(a, sources) && Conserves(a, sources, text, out)
    ensures Effective(out) == Elements(out.origins)
    ensures sources != [] ==> Effective(out) == OriginsOf(a, sources)
  {
    if sources != [] {
      var one := a[sources[0]];
      var o := if one.origins == [] then one.id else one.origins[0];
      assert o in Effective(one) && o in OriginsOf(a, sources);
      assert o in Elements(out.origins);
    }
  }

  /** Two rewrites give an output the origins of its original sources, plus those the first rewrite made up. */
  lemma {:induction false} RewritesCompose(a: seq<Instruction>, texts: seq<string>, first: seq<seq<nat>>,
                                           b: seq<Instruction>, sources: seq<nat>)
    requires Rewritten(a, texts, first, b)
    requires forall k :: 0 <= k < |sources| ==> sources[k] < |b|
    ensures forall k :: 0 <= k < |Composed(first, sources)| ==> Composed(first, sources)[k] < |a|
    ensures OriginsOf(b, sources) == OriginsOf(a, Composed(first, sources)) + MadeUp(b, first, sources)
  {
    if sources != [] {
      var x := sources[0];
      assert SourcesFit(a, first[x]) && Conserves(a, first[x], texts[x], b[x]);
      OutputOrigins(a, first[x], texts[x], b[x]);
      RewritesCompose(a, texts, first, b, sources[1..]);
      hide Effective, Conserves, Acceptable;
      OriginsConcat(a, first[x], Composed(first, sources[1..]));
    }
  }

  /** The origins of every output of a second rewrite, in terms of the first input. */
  lemma SecondRewriteOrigins(a: seq<Instruction>, texts: seq<string>, first: seq<seq<nat>>, b: seq<Instruction>,
                             texts2: seq<string>, second: seq<seq<nat>>, c: seq<Instruction>, p: nat)
    requires Rewritten(a, texts, first, b) && Rewritten(b, texts2, second, c)
    requires p < |c| && second[p] != []
    ensures forall k :: 0 <= k < |second[p]| ==> second[p][k] < |first|
    ensures forall k :: 0 <= k < |Composed(first, second[p])| ==> Composed(first, second[p])[k] < |a|
    ensures Elements(c[p].origins) == OriginsOf(a, Composed(first, second[p])) + MadeUp(b, first, second[p])
  {
    assert SourcesFit(b, second[p]) && Conserves(b, second[p], texts2[p], c[p]);
    RewritesCompose(a, texts, first, b, second[p]);
  }

  // ----- inheritance over any number of rewrites -----

  /** Every instruction of b comes from instructions of a that no other one comes from: it has their origins and region,
      and the identity of one of them. */
  ghost predicate Inherits(a: seq<Instruction>, m: seq<seq<nat>>, b: seq<Instruction>) {
    && |m| == |b| && Unshared(m)
    && (forall k :: 0 <= k < |m| ==> InheritsAt(a, m[k], b[k]))
  }

  ghost predicate InheritsAt(a: seq<Instruction>, sources: seq<nat>, out: Instruction) {
    && sources != [] && (forall x :: x in sources ==> x < |a| && out.region == a[x].region)
    && (forall i :: 0 <= i < |sources| ==> sources[i] < |a|)
    && Effective(out) == OriginsOf(a, sources)
    && (exists x: nat :: x in sources && x < |a| && out.id == a[x].id)
  }

  lemma RewriteInherits(a: seq<Instruction>, texts: seq<string>, m: seq<seq<nat>>, out: seq<Instruction>)
    requires Written(a, texts, m, out) && forall p :: 0 <= p < |m| ==> m[p] != []
    ensures Inherits(a, m, out)
  {
    hide KeepsBody, OriginsOf, UniqueIds, Unshared, Effective;
    forall p | 0 <= p < |out| ensures InheritsAt(a, m[p], out[p]) {
      assert WrittenAs(a, m[p], texts[p], Import(texts)[p].body, Serialize, out[p]);
      Within(a, m[p]);
      OutputOrigins(a, m[p], texts[p], out[p]);
    }
  }

  function ComposedAll(first: seq<seq<nat>>, second: seq<seq<nat>>): (r: seq<seq<nat>>)
    requires forall k, i :: 0 <= k < |second| && 0 <= i < |second[k]| ==> second[k][i] < |first|
    ensures |r| == |second|
  {
    seq(|second|, k requires 0 <= k < |second| => Composed(first, second[k]))
  }

  lemma {:induction false} ComposedMembers(first: seq<seq<nat>>, sources: seq<nat>, x: nat)
    requires forall k :: 0 <= k < |sources| ==> sources[k] < |first|
    ensures x in Composed(first, sources) <==> exists u: nat :: u in sources && u < |first| && x in first[u]
  {
    if sources != [] {
      ComposedMembers(first, sources[1..], x);
      assert forall u :: u in sources <==> u == sources[0] || u in sources[1..];
    }
  }

  lemma {:induction false} ComposedOrigins(a: seq<Instruction>, first: seq<seq<nat>>, b: seq<Instruction>,
                                           sources: seq<nat>)
    requires Inherits(a, first, b) && forall k :: 0 <= k < |sources| ==> sources[k] < |b|
    ensures forall k :: 0 <= k < |Composed(first, sources)| ==> Composed(first, sources)[k] < |a|
    ensures OriginsOf(b, sources) == OriginsOf(a, Composed(first, sources))
  {
    hide Effective, Unshared;
    if sources != [] {
      assert InheritsAt(a, first[sources[0]], b[sources[0]]);
      ComposedOrigins(a, first, b, sources[1..]);
      OriginsConcat(a, first[sources[0]], Composed(first, sources[1..]));
    }
  }

  lemma InheritsAtCompose(a: seq<Instruction>, first: seq<seq<nat>>, b: seq<Instruction>, sources: seq<nat>,
                          out: Instruction)
    requires Inherits(a, first, b) && InheritsAt(b, sources, out)
    ensures InheritsAt(a, Composed(first, sources), out)
  {
    hide Effective, Unshared, OriginsOf;
    ComposedOrigins(a, first, b, sources);
    var all := Composed(first, sources);
    forall x: nat | x in all ensures x < |a| && out.region == a[x].region {
      ComposedMembers(first, sources, x);
      var u: nat :| u in sources && u < |first| && x in first[u];
      assert InheritsAt(a, first[u], b[u]);
    }
    var u: nat :| u in sources && u < |b| && out.id == b[u].id;
    assert InheritsAt(a, first[u], b[u]);
    var x: nat :| x in first[u] && x < |a| && b[u].id == a[x].id;
    ComposedMembers(first, sources, x);
    assert x in all;
  }

  /** Inheriting from what inherited is inheriting. */
  lemma InheritsCompose(a: seq<Instruction>, first: seq<seq<nat>>, b: seq<Instruction>, second: seq<seq<nat>>,
                        c: seq<Instruction>)
    requires Inherits(a, first, b) && Inherits(b, second, c)
    ensures forall k, i :: 0 <= k < |second| && 0 <= i < |second[k]| ==> second[k][i] < |first|
    ensures Inherits(a, ComposedAll(first, second), c)
  {
    hide Effective, OriginsOf, Composed;
    forall k | 0 <= k < |second| ensures forall i :: 0 <= i < |second[k]| ==> second[k][i] < |first| {
      assert InheritsAt(b, second[k], c[k]);
    }
    var m := ComposedAll(first, second);
    forall k | 0 <= k < |m| ensures InheritsAt(a, m[k], c[k]) {
      assert InheritsAt(b, second[k], c[k]);
      InheritsAtCompose(a, first, b, second[k], c[k]);
    }
    forall p, q, x: nat | 0 <= p < q < |m| && x in m[p] ensures x !in m[q] {
      ComposedMembers(first, second[p], x);
      ComposedMembers(first, second[q], x);
      var u: nat :| u in second[p] && u < |first| && x in first[u];
      forall v: nat | v in second[q] && v < |first| ensures x !in first[v] {
        assert u !in second[q];
        if u < v {
          assert x in first[u];
        }
      }
    }
  }

  function OneEach(n: nat): (m: seq<seq<nat>>)
    ensures |m| == n && forall k: nat :: k < n ==> m[k] == [k]
  {
    seq(n, k requires 0 <= k < n => [k as nat])
  }

  lemma InheritsFromItself(a: seq<Instruction>)
    ensures Inherits(a, OneEach(|a|), a)
  {
    hide InheritsAt;
    forall k: nat | k < |a| ensures InheritsAt(a, [k], a[k]) {
      InheritsOne(a, k);
    }
  }

  lemma InheritsOne(a: seq<Instruction>, k: nat)
    requires k < |a|
    ensures InheritsAt(a, [k], a[k])
  {
    assert [k][1..] == [];
    assert k in [k];
  }
}
