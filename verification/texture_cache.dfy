/**
  The 3D engine's path-keyed texture cache (`Assets::getTexture` over the `textures` list).
  GPU texture creation is the opaque `loader`; its result is a texture id, 0 on failure.
*/
module TextureCache {
  import opened Basics

  datatype Texture = Texture(path: string, id: nat)

  /** The id cached for `path`: the first entry with that path, if any. */
  function Find(entries: seq<Texture>, path: string): (r: Option<nat>)
    ensures r.None? <==> forall i :: 0 <= i < |entries| ==> entries[i].path != path
    ensures r.Some? ==> Texture(path, r.value) in entries
  {
    if entries == [] then None
    else if entries[0].path == path then Some(entries[0].id)
    else Find(entries[1..], path)
  }

  predicate DistinctPaths(entries: seq<Texture>) {
    forall i, j :: 0 <= i < j < |entries| ==> entries[i].path != entries[j].path
  }

  function Paths(entries: seq<Texture>): (ps: seq<string>)
    ensures |ps| == |entries| && forall i :: 0 <= i < |entries| ==> ps[i] == entries[i].path
  {
    if entries == [] then [] else Paths(entries[..|entries| - 1]) + [entries[|entries| - 1].path]
  }

  /** One `getTexture` call on a cache state: the id returned and the cache afterwards. */
  function Request(entries: seq<Texture>, path: string, loader: string -> nat): (r: (nat, seq<Texture>))
    ensures entries <= r.1 && |r.1| <= |entries| + 1 && Texture(path, r.0) in r.1
    ensures r.1 == entries <==> Find(entries, path).Some?
  {
    match Find(entries, path)
    case Some(id) => (id, entries)
    case None => (loader(path), entries + [Texture(path, loader(path))])
  }

  /** Appending an entry only answers for its own path, and only if that path was not cached. */
  lemma {:induction false} FindAppend(entries: seq<Texture>, t: Texture, path: string)
    ensures Find(entries + [t], path)
         == if Find(entries, path).Some? then Find(entries, path)
            else if t.path == path then Some(t.id) else None
  {
    if entries != [] {
      assert (entries + [t])[1..] == entries[1..] + [t];
      FindAppend(entries[1..], t, path);
    }
  }

  /** A request keeps every existing entry in place and adds at most one, keeping paths distinct; afterwards the path is cached with the id returned. */
  lemma RequestExtends(entries: seq<Texture>, path: string, loader: string -> nat)
    requires DistinctPaths(entries)
    ensures var r := Request(entries, path, loader);
      DistinctPaths(r.1) && entries <= r.1 && |r.1| <= |entries| + 1 && Find(r.1, path) == Some(r.0)
  {
    RequestCaches(entries, path, loader);
  }

  /** A request keeps every existing entry in place; afterwards the path is cached with the id returned. */
  lemma RequestCaches(entries: seq<Texture>, path: string, loader: string -> nat)
    ensures var r := Request(entries, path, loader);
      entries <= r.1 && Find(r.1, path) == Some(r.0)
  {
    if Find(entries, path).None? {
      FindAppend(entries, Texture(path, loader(path)), path);
    }
  }

  /** Asking again for a path returns the same id and leaves the cache as it is, whatever the loader would now return. */
  lemma RequestAgain(entries: seq<Texture>, path: string, loader: string -> nat, later: string -> nat)
    ensures var (id, after) := Request(entries, path, loader);
      Request(after, path, later) == (id, after)
  {
    if Find(entries, path).None? {
      FindAppend(entries, Texture(path, loader(path)), path);
    }
  }

  /** A failed load is cached as 0 and never retried. */
  lemma FailedLoadIsCached(entries: seq<Texture>, path: string, loader: string -> nat)
    requires Find(entries, path).None? && loader(path) == 0
    ensures Request(entries, path, loader).0 == 0
    ensures Find(Request(entries, path, loader).1, path) == Some(0)
  {
    FindAppend(entries, Texture(path, 0), path);
  }

  /** A series of requests, in order; returns the ids handed out and the final cache. */
  function RequestAll(entries: seq<Texture>, paths: seq<string>, loader: string -> nat): (r: (seq<nat>, seq<Texture>))
    ensures |r.0| == |paths|
  {
    if paths == [] then ([], entries)
    else
      var (ids, mid) := RequestAll(entries, paths[..|paths| - 1], loader);
      var (id, last) := Request(mid, paths[|paths| - 1], loader);
      (ids + [id], last)
  }

  /** After any series of requests: paths stay distinct, earlier entries are never altered, removed or reordered, at most one entry is added per request, and every requested path is cached under the id it was given. */
  lemma RequestAllKeeps(entries: seq<Texture>, paths: seq<string>, loader: string -> nat)
    requires DistinctPaths(entries)
    ensures var (ids, after) := RequestAll(entries, paths, loader);
      DistinctPaths(after) && entries <= after && |after| <= |entries| + |paths| &&
      forall k :: 0 <= k < |paths| ==> Find(after, paths[k]) == Some(ids[k])
  {
    RequestAllGrows(entries, paths, loader);
    RequestAllFinds(entries, paths, loader);
  }

  /** The cache only grows, by at most one entry per request, and its paths stay distinct. */
  lemma {:induction false} RequestAllGrows(entries: seq<Texture>, paths: seq<string>, loader: string -> nat)
    requires DistinctPaths(entries)
    ensures var after := RequestAll(entries, paths, loader).1;
      DistinctPaths(after) && entries <= after && |after| <= |entries| + |paths|
  {
    if paths != [] {
      var front := paths[..|paths| - 1];
      RequestAllGrows(entries, front, loader);
      RequestExtends(RequestAll(entries, front, loader).1, paths[|paths| - 1], loader);
    }
  }

  /** Every path requested in a series is cached, afterwards, under the id it was given. */
  lemma {:induction false} RequestAllFinds(entries: seq<Texture>, paths: seq<string>, loader: string -> nat)
    ensures var (ids, after) := RequestAll(entries, paths, loader);
      forall k :: 0 <= k < |paths| ==> Find(after, paths[k]) == Some(ids[k])
  {
    if paths != [] {
      var front := paths[..|paths| - 1];
      var p := paths[|paths| - 1];
      RequestAllFinds(entries, front, loader);
      var before := RequestAll(entries, front, loader);
      var ids, mid := before.0, before.1;
      RequestCaches(mid, p, loader);
      var r := Request(mid, p, loader);
      var id, after := r.0, r.1;
      FindsKept(mid, after, front, ids);
      FoundAppend(after, front, ids, p, id);
      assert paths == front + [p];
    }
  }

  /** Adds the last request of a series to what is known to be cached. */
  lemma FoundAppend(after: seq<Texture>, front: seq<string>, ids: seq<nat>, p: string, id: nat)
    requires |ids| == |front| && Find(after, p) == Some(id)
    requires forall k :: 0 <= k < |front| ==> Find(after, front[k]) == Some(ids[k])
    ensures forall k :: 0 <= k < |front| + 1 ==> Find(after, (front + [p])[k]) == Some((ids + [id])[k])
  {
    forall k | 0 <= k < |front| + 1
      ensures Find(after, (front + [p])[k]) == Some((ids + [id])[k])
    {
      if k < |front| {
        assert (front + [p])[k] == front[k] && (ids + [id])[k] == ids[k];
      }
    }
  }

  /** Ids found in a cache are still found in any extension of it. */
  lemma FindsKept(mid: seq<Texture>, after: seq<Texture>, front: seq<string>, ids: seq<nat>)
    requires mid <= after && |ids| == |front|
    requires forall k :: 0 <= k < |front| ==> Find(mid, front[k]) == Some(ids[k])
    ensures forall k :: 0 <= k < |front| ==> Find(after, front[k]) == Some(ids[k])
  {
    forall k | 0 <= k < |front|
      ensures Find(after, front[k]) == Some(ids[k])
    {
      FindPrefix(mid, after, front[k]);
    }
  }

  /** A path cached in a prefix keeps its id in any extension. */
  lemma {:induction false} FindPrefix(prefix: seq<Texture>, entries: seq<Texture>, path: string)
    requires prefix <= entries && Find(prefix, path).Some?
    ensures Find(entries, path) == Find(prefix, path)
  {
    if prefix[0].path != path {
      assert prefix[1..] <= entries[1..];
      FindPrefix(prefix[1..], entries[1..], path);
    }
  }

  /** The entry at `i` answers for its path when no earlier entry has that path. */
  lemma {:induction false} FindFirst(entries: seq<Texture>, path: string, i: nat)
    requires i < |entries| && entries[i].path == path
    requires forall j :: 0 <= j < i ==> entries[j].path != path
    ensures Find(entries, path) == Some(entries[i].id)
  {
    if i > 0 {
      assert entries[0].path != path;
      FindFirst(entries[1..], path, i - 1);
    }
  }

  /** The process-wide texture list. */
  class Cache {
    var entries: seq<Texture>
    /** The paths handed to the loader so far, in call order. */
    ghost var loads: seq<string>

    /** At most one entry per path, and exactly one loader call per entry. */
    ghost predicate Valid()
      reads this
    {
      DistinctPaths(entries) && loads == Paths(entries)
    }

    constructor ()
      ensures Valid() && entries == [] && loads == []
    {
      entries := [];
      loads := [];
    }

    /** The scan that opens `getTexture`: the cached id of `path`, if any. */
    method Lookup(path: string) returns (r: Option<nat>)
      ensures r == Find(entries, path)
    {
      var i := 0;
      while i < |entries|
        invariant 0 <= i <= |entries|
        invariant forall j :: 0 <= j < i ==> entries[j].path != path
      {
        if entries[i].path == path {
          FindFirst(entries, path, i);
          return Some(entries[i].id);
        }
        i := i + 1;
      }
      return None;
    }

    /**
      `Assets::getTexture`: a hit returns the cached id without loading; a miss loads once,
      appends one entry and returns the new id.
    */
    method GetTexture(path: string, loader: string -> nat) returns (id: nat)
      requires Valid()
      modifies this
      ensures Valid()
      ensures (id, entries) == Request(old(entries), path, loader)
      ensures loads == if Find(old(entries), path).Some? then old(loads) else old(loads) + [path]
    {
      var cached := Lookup(path);
      if cached.Some? {
        return cached.value;
      }
      id := loader(path);
      RequestExtends(entries, path, loader);
      entries := entries + [Texture(path, id)];
      loads := loads + [path];
      assert Paths(entries)[..|entries| - 1] == Paths(old(entries));
    }
  }
}
