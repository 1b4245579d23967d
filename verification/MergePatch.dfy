/** JSON values and the merge patch of RFC 7396, section 2. */
module MergePatch {

  datatype Json =
    | Null
    | Bool(b: bool)
    | Number(n: int)
    | String(s: string)
    | Array(items: seq<Json>)
    | Object(members: map<string, Json>)

  /** The members of a value, none unless it is an object. */
  function MembersOf(v: Json): map<string, Json> {
    if v.Object? then v.members else map[]
  }

  /** Section 2 of RFC 7396.  A missing target member is patched like a null one. */
  function Merge(target: Json, patch: Json): Json
    decreases patch
  {
    if !patch.Object? then patch
    else
      var base := MembersOf(target);
      Object(map k | k in base.Keys + patch.members.Keys && !(k in patch.members && patch.members[k].Null?) ::
        if k in patch.members then Merge(if k in base then base[k] else Null, patch.members[k]) else base[k])
  }

  /** What one member of the target becomes. */
  lemma MergeMember(target: Json, patch: Json, k: string)
    requires patch.Object?
    ensures Merge(target, patch).Object?
    ensures var base, m := MembersOf(target), Merge(target, patch).members;
      && (k in m <==> if k in patch.members then !patch.members[k].Null? else k in base)
      && (k in m && k in patch.members ==>
            m[k] == Merge(if k in base then base[k] else Null, patch.members[k]))
      && (k in m && k !in patch.members ==> m[k] == base[k])
  {
  }

  lemma SameMembers(a: Json, b: Json)
    requires a.Object? && b.Object?
    requires forall k :: k in a.members <==> k in b.members
    requires forall k | k in a.members :: a.members[k] == b.members[k]
    ensures a == b
  {
  }

  /** Applying a patch again changes nothing, so a retry of a patch that did land is harmless. */
  lemma {:induction false} MergeIdempotent(target: Json, patch: Json)
    ensures Merge(Merge(target, patch), patch) == Merge(target, patch)
    decreases patch
  {
    if patch.Object? {
      var once := Merge(target, patch);
      var twice := Merge(once, patch);
      forall k: string
        ensures k in twice.members <==> k in once.members
        ensures k in once.members ==> twice.members[k] == once.members[k]
      {
        MergeMember(target, patch, k);
        MergeMember(once, patch, k);
        if k in patch.members {
          var base := MembersOf(target);
          MergeIdempotent(if k in base then base[k] else Null, patch.members[k]);
        }
      }
      SameMembers(twice, once);
    }
  }

  /** Two patches that set no place in common: where both name a member, both go inside it. */
  predicate Independent(p: Json, q: Json)
    decreases p
  {
    && p.Object? && q.Object?
    && forall k | k in p.members && k in q.members :: Independent(p.members[k], q.members[k])
  }

  /** Independent patches commute, on every target. */
  lemma {:induction false} IndependentCommute(target: Json, p: Json, q: Json)
    requires Independent(p, q)
    ensures Merge(Merge(target, p), q) == Merge(Merge(target, q), p)
    decreases p
  {
    var a, b := Merge(target, p), Merge(target, q);
    var ab, ba := Merge(a, q), Merge(b, p);
    forall k: string
      ensures k in ab.members <==> k in ba.members
      ensures k in ab.members ==> ab.members[k] == ba.members[k]
    {
      MergeMember(target, p, k);
      MergeMember(a, q, k);
      MergeMember(target, q, k);
      MergeMember(b, p, k);
      if k in p.members && k in q.members {
        var base := MembersOf(target);
        IndependentCommute(if k in base then base[k] else Null, p.members[k], q.members[k]);
      }
    }
    SameMembers(ab, ba);
  }
}
