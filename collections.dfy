/**
 * The id-keyed list updates the components and hooks share:
 * `list.filter(x => x.id !== id)`, `list.filter(x => !ids.includes(x.id))` and
 * `list.map(x => x.id === id ? replacement : x)`. `key` reads an entry's id
 * (`id` for pending images, `_id` for designs and blogs).
 */
module Collections {

  /** Splitting a concatenation at its first element. */
  lemma ConsAppend<T>(a: seq<T>, b: seq<T>)
    requires a != []
    ensures (a + b)[0] == a[0] && (a + b)[1..] == a[1..] + b
  {
  }

  lemma AppendAssoc<T>(a: seq<T>, b: seq<T>, c: seq<T>)
    ensures a + b + c == a + (b + c)
  {
  }

  lemma OnlyFirst<T>(a: seq<T>, b: seq<T>, c: seq<T>)
    requires b == [] && c == []
    ensures a + b + c == a
  {
  }

  lemma OnlySecond<T>(a: seq<T>, b: seq<T>, c: seq<T>)
    requires a == [] && c == []
    ensures a + b + c == b
  {
  }

  lemma OnlyThird<T>(a: seq<T>, b: seq<T>, c: seq<T>)
    requires a == [] && b == []
    ensures a + b + c == c
  {
  }

  /** `xs.filter(x => key(x) !== id)`. */
  function RemoveById<T>(xs: seq<T>, key: T -> string, id: string): (r: seq<T>)
    ensures |r| <= |xs|
  {
    if xs == [] then []
    else (if key(xs[0]) != id then [xs[0]] else []) + RemoveById(xs[1..], key, id)
  }

  /** What survives a removal: exactly the entries whose id differs. */
  lemma {:induction false} RemoveByIdMembers<T>(xs: seq<T>, key: T -> string, id: string, x: T)
    ensures x in RemoveById(xs, key, id) <==> x in xs && key(x) != id
  {
    if xs != [] {
      RemoveByIdMembers(xs[1..], key, id, x);
      assert xs == [xs[0]] + xs[1..];
    }
  }

  /** `xs.filter(x => !ids.includes(key(x)))`. */
  function RemoveAllIds<T>(xs: seq<T>, key: T -> string, ids: seq<string>): (r: seq<T>)
    ensures |r| <= |xs|
  {
    if xs == [] then []
    else (if key(xs[0]) !in ids then [xs[0]] else []) + RemoveAllIds(xs[1..], key, ids)
  }

  /** What survives a bulk removal: exactly the entries whose id is not listed. */
  lemma {:induction false} RemoveAllIdsMembers<T>(xs: seq<T>, key: T -> string, ids: seq<string>, x: T)
    ensures x in RemoveAllIds(xs, key, ids) <==> x in xs && key(x) !in ids
  {
    if xs != [] {
      RemoveAllIdsMembers(xs[1..], key, ids, x);
      assert xs == [xs[0]] + xs[1..];
    }
  }

  /** `xs.map(x => key(x) === id ? replacement : x)`. */
  function ReplaceById<T>(xs: seq<T>, key: T -> string, id: string, replacement: T): (r: seq<T>)
    ensures |r| == |xs|
    ensures forall i :: 0 <= i < |xs| && key(xs[i]) == id ==> r[i] == replacement
    ensures forall i :: 0 <= i < |xs| && key(xs[i]) != id ==> r[i] == xs[i]
  {
    if xs == [] then []
    else [if key(xs[0]) == id then replacement else xs[0]] + ReplaceById(xs[1..], key, id, replacement)
  }

  /** Removal works element by element: it distributes over concatenation, so the survivors keep their order. */
  lemma {:induction false} RemoveByIdAppend<T>(a: seq<T>, b: seq<T>, key: T -> string, id: string)
    ensures RemoveById(a + b, key, id) == RemoveById(a, key, id) + RemoveById(b, key, id)
  {
    if a == [] {
      assert a + b == b;
    } else {
      var head := if key(a[0]) != id then [a[0]] else [];
      ConsAppend(a, b);
      assert RemoveById(a + b, key, id) == head + RemoveById(a[1..] + b, key, id);
      RemoveByIdAppend(a[1..], b, key, id);
      AppendAssoc(head, RemoveById(a[1..], key, id), RemoveById(b, key, id));
    }
  }

  /** Nothing is removed when no entry carries the id. */
  lemma {:induction false} RemoveByIdAbsent<T>(xs: seq<T>, key: T -> string, id: string)
    requires forall i :: 0 <= i < |xs| ==> key(xs[i]) != id
    ensures RemoveById(xs, key, id) == xs
  {
    if xs != [] {
      RemoveByIdAbsent(xs[1..], key, id);
    }
  }

  /** Deleting the ids one at a time, in any given order. */
  function RemoveEach<T>(xs: seq<T>, key: T -> string, ids: seq<string>): seq<T>
    decreases |ids|
  {
    if ids == [] then xs else RemoveEach(RemoveById(xs, key, ids[0]), key, ids[1..])
  }

  lemma {:induction false} RemoveAllIdsAfterRemoveById<T>(xs: seq<T>, key: T -> string, id: string, rest: seq<string>)
    ensures RemoveAllIds(RemoveById(xs, key, id), key, rest) == RemoveAllIds(xs, key, [id] + rest)
  {
    if xs != [] {
      RemoveAllIdsAfterRemoveById(xs[1..], key, id, rest);
      var head := if key(xs[0]) != id then [xs[0]] else [];
      assert RemoveById(xs, key, id) == head + RemoveById(xs[1..], key, id);
      RemoveAllIdsAppend(head, RemoveById(xs[1..], key, id), key, rest);
    }
  }

  lemma {:induction false} RemoveAllIdsAppend<T>(a: seq<T>, b: seq<T>, key: T -> string, ids: seq<string>)
    ensures RemoveAllIds(a + b, key, ids) == RemoveAllIds(a, key, ids) + RemoveAllIds(b, key, ids)
  {
    if a == [] {
      assert a + b == b;
    } else {
      var head := if key(a[0]) !in ids then [a[0]] else [];
      ConsAppend(a, b);
      assert RemoveAllIds(a + b, key, ids) == head + RemoveAllIds(a[1..] + b, key, ids);
      RemoveAllIdsAppend(a[1..], b, key, ids);
      AppendAssoc(head, RemoveAllIds(a[1..], key, ids), RemoveAllIds(b, key, ids));
    }
  }

  lemma {:induction false} RemoveAllIdsNone<T>(xs: seq<T>, key: T -> string)
    ensures RemoveAllIds(xs, key, []) == xs
  {
    if xs != [] {
      RemoveAllIdsNone(xs[1..], key);
    }
  }

  /** A bulk removal leaves the same list as deleting the ids one by one. */
  lemma {:induction false} RemoveAllIdsIsRemoveEach<T>(xs: seq<T>, key: T -> string, ids: seq<string>)
    ensures RemoveAllIds(xs, key, ids) == RemoveEach(xs, key, ids)
    decreases |ids|
  {
    if ids == [] {
      RemoveAllIdsNone(xs, key);
    } else {
      RemoveAllIdsIsRemoveEach(RemoveById(xs, key, ids[0]), key, ids[1..]);
      RemoveAllIdsAfterRemoveById(xs, key, ids[0], ids[1..]);
      assert [ids[0]] + ids[1..] == ids;
    }
  }

  /** Replacing an id and then deleting it is the same as deleting it. */
  lemma {:induction false} RemoveAfterReplace<T>(xs: seq<T>, key: T -> string, id: string, replacement: T)
    requires key(replacement) == id
    ensures RemoveById(ReplaceById(xs, key, id, replacement), key, id) == RemoveById(xs, key, id)
  {
    if xs != [] {
      RemoveAfterReplace(xs[1..], key, id, replacement);
      var r := ReplaceById(xs, key, id, replacement);
      assert r[1..] == ReplaceById(xs[1..], key, id, replacement);
    }
  }
}
