/** What the canonical text and the manifest look like: members and files in the order of their names. */
module CanonicalOrder {
  import opened Outcomes
  import opened Sorting
  import opened Json
  import opened Paths
  import JsonSize
  import M = Manifest
  import S = Strings
  import Utf8

  // ---------------------------------------------------------------- object members

  /** Names in order, each before every later one. */
  ghost predicate InOrder(names: seq<string>) {
    forall i, j | 0 <= i < j < |names| :: S.Earlier(names[i], names[j])
  }

  lemma EarlierIsStrict(a: string, b: string)
    requires S.Earlier(a, b)
    ensures S.Leq(a, b) && a != b && !S.Leq(b, a)
  {
    S.LeqIff(a, b);
    assert !S.Earlier(a, a);
    if S.Leq(b, a) { S.LeqAntisymmetric(a, b); }
  }

  /** The keys of an object in order are the order in which it is written. */
  lemma KeysInOrder(v: Value, names: seq<string>)
    requires v.Obj? && InOrder(names) && Elements(names) == v.fields.Keys
    ensures Keys(v) == names
  {
    hide S.Leq, S.Earlier;
    forall i, j | 0 <= i < j < |names| ensures S.Leq(names[i], names[j]) && names[i] != names[j] {
      EarlierIsStrict(names[i], names[j]);
    }
    S.LeqIsTotalOn(Elements(names));
    SortedIsUnique(names, Keys(v), S.Leq);
  }

  lemma RenderFirst(v: Value, keys: seq<string>)
    requires v.Obj? && (forall k | k in keys :: k in v.fields) && keys != []
    ensures keys[0] in keys
    ensures RenderFields(v, keys) ==
            Render(Str(keys[0])) + ":" + Render(v.fields[keys[0]]) + (if |keys| == 1 then "" else ",") + RenderFields(v, keys[1..])
  {
  }

  lemma PairInOrder(a: string, b: string)
    requires S.Earlier(a, b)
    ensures InOrder([a, b]) && a != b && Elements([a, b]) == {a, b}
  {
    hide S.Earlier, S.Leq;
    EarlierIsStrict(a, b);
  }

  lemma TwoFields(v: Value, a: string, b: string)
    requires v.Obj? && a in v.fields && b in v.fields
    ensures RenderFields(v, [a, b]) ==
            Render(Str(a)) + ":" + Render(v.fields[a]) + "," + (Render(Str(b)) + ":" + Render(v.fields[b]) + "" + "")
  {
    hide Render, RenderFields;
    var names := [a, b];
    RenderFirst(v, names);
    assert names[1..] == [b] && [b][1..] == [];
    RenderFirst(v, [b]);
    NoMembers(v);
  }

  /** Of two members, the one with the earlier key is written first. */
  lemma TwoMembers(a: string, b: string, u: Value, w: Value)
    requires S.Earlier(a, b)
    ensures Render(Obj(map[a := u, b := w])) ==
            "{" + (Render(Str(a)) + ":" + Render(u)) + "," + (Render(Str(b)) + ":" + Render(w)) + "}"
  {
    hide Render, RenderFields, Keys, S.Earlier, InOrder;
    PairInOrder(a, b);
    var v := Obj(map[a := u, b := w]);
    assert v.fields.Keys == {a, b};
    KeysInOrder(v, [a, b]);
    TwoFields(v, a, b);
    ObjectText(v);
    var first, second := Render(Str(a)) + ":" + Render(u), Render(Str(b)) + ":" + Render(w);
    assert second + "" + "" == second;
    assert "{" + (first + "," + second) + "}" == "{" + first + "," + second + "}";
  }

  lemma ObjectText(v: Value)
    requires v.Obj?
    ensures Render(v) == "{" + RenderFields(v, Keys(v)) + "}"
  {
    hide RenderFields, Keys;
  }

  lemma NoMembers(v: Value)
    requires v.Obj?
    ensures RenderFields(v, []) == ""
  {
  }

  /** How long one character is written: two for the seven short escapes of section 7 of RFC 8259, six for every
      other control character, itself for all others. */
  lemma CharacterLength(c: char)
    ensures |Render(Str([c]))| == 2 + (if c in {'"', '\\', '\n', '\r', '\t'} || c as int == 8 || c as int == 12 then 2
                                       else if (c as int) < 0x20 then 6 else 1)
  {
    var s := [c];
    assert s[1..] == "";
    assert Escape(s) == EscapeChar(c) + "";
  }

  // ---------------------------------------------------------------- manifest rows

  /** Where the two paths part, `p` has a file and `q` a directory, or both have the same and `p`'s name is earlier. */
  ghost predicate PartsBefore(p: Path, q: Path, k: nat) {
    && k < |p| && k < |q| && p[..k] == q[..k]
    && var file, other := |p| == k + 1, |q| == k + 1;
       (file && !other) || (file == other && S.Earlier(p[k], q[k]))
  }

  lemma {:induction false} PartsBeforeIsWalkOrder(p: Path, q: Path, k: nat)
    requires PartsBefore(p, q, k)
    ensures M.WalkLeq(p, q) && p != q
    decreases k
  {
    hide S.Leq, S.Earlier;
    if k == 0 {
      if (|p| == 1) == (|q| == 1) { EarlierIsStrict(p[0], q[0]); }
    } else {
      assert p[0] == p[..k][0] == q[..k][0] == q[0];
      assert p[1..][..k - 1] == p[..k][1..] && q[1..][..k - 1] == q[..k][1..];
      PartsBeforeIsWalkOrder(p[1..], q[1..], k - 1);
    }
  }

  /** The manifest lists files in the order of their names, and a directory's files before what lies deeper. */
  lemma ManifestInOrder(paths: set<Path>, p: Path, q: Path, k: nat)
    requires [] !in paths && p in paths && q in paths && PartsBefore(p, q, k)
    ensures exists i, j :: 0 <= i < j < |M.ManifestPathOrder(paths, [])|
                           && M.ManifestPathOrder(paths, [])[i] == p && M.ManifestPathOrder(paths, [])[j] == q
  {
    hide M.WalkLeq, M.ManifestPathOrder, PartsBefore;
    M.ManifestLists(paths, []);
    assert M.Below(paths, []) == paths;
    PartsBeforeIsWalkOrder(p, q, k);
    var order := M.ManifestPathOrder(paths, []);
    assert p in Elements(order) && q in Elements(order);
    var i :| 0 <= i < |order| && order[i] == p;
    var j :| 0 <= j < |order| && order[j] == q;
    if j < i { M.WalkAntisymmetric(p, q); }
  }
}
