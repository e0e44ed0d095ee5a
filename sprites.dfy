/**
 * The sprite pool of the visualizer, src/visualizer/src/core/sprite.py:
 * every image is loaded once, and the pool records who uses it. A sprite
 * is kept while at least one user holds it and leaves the pool with its
 * last user. Whoever uses a sprite is an `Owner`, a number standing for the
 * entity's identity, with 0 standing for every falsy value Python rejects.
 * Reading the file is an oracle: `FileStatus` says whether the path names a
 * file and whether the image library could read it.
 */
module Sprites {
  import opened Wrappers
  import opened PyList

  type Owner = nat

  datatype Sprite = Sprite(path: string, references: seq<Owner>)

  /** The file behind a path: an image, a file the image library cannot read, or no file. */
  datatype FileStatus = Image | Unreadable | Missing

  /**
   * EngineNoReference for a falsy user, FileNotFoundError and the
   * EngineException of a failed image read, and the ValueError of
   * `list.remove` when a user that holds nothing lets go.
   */
  datatype SpriteError = NoReference | FileNotFound | LoadFailed | NotReferenced

  /** The paths of the pool, in order. */
  function Paths(pool: seq<Sprite>): (r: seq<string>)
    ensures |r| == |pool| && forall i :: 0 <= i < |pool| ==> r[i] == pool[i].path
  {
    seq(|pool|, i requires 0 <= i < |pool| => pool[i].path)
  }

  /** `get_sprite`: the first sprite of the pool with the path. */
  function Find(pool: seq<Sprite>, path: string): (r: Option<nat>)
    ensures r.Some? ==> r.value < |pool| && pool[r.value].path == path
    ensures r.Some? ==> forall j :: 0 <= j < r.value ==> pool[j].path != path
    ensures r.None? <==> forall j :: 0 <= j < |pool| ==> pool[j].path != path
  {
    var r := IndexOf(Paths(pool), path);
    assert r.Some? ==> forall j :: 0 <= j < r.value ==> Paths(pool)[..r.value][j] == pool[j].path;
    r
  }

  /** No path is loaded twice. */
  predicate UniquePaths(pool: seq<Sprite>)
  {
    forall i, j :: 0 <= i < j < |pool| ==> pool[i].path != pool[j].path
  }

  /** Every pooled sprite has a user, and no user is falsy. */
  predicate InUse(pool: seq<Sprite>)
  {
    forall i :: 0 <= i < |pool| ==> |pool[i].references| > 0 && 0 !in pool[i].references
  }

  predicate PoolValid(pool: seq<Sprite>)
  {
    UniquePaths(pool) && InUse(pool)
  }

  /**
   * `load_sprite`: a falsy user is refused; a pooled path gains the user;
   * otherwise the file is read and a new sprite with this one user joins
   * the end of the pool. The answer is the new pool and the sprite handed out.
   */
  function Loaded(pool: seq<Sprite>, path: string, owner: Owner, file: FileStatus): (r: Result<(seq<Sprite>, Sprite), SpriteError>)
  {
    if owner == 0 then Failure(NoReference)
    else match Find(pool, path)
      case Some(i) =>
        var s := pool[i].(references := pool[i].references + [owner]);
        Success((pool[i := s], s))
      case None =>
        if file == Missing then Failure(FileNotFound)
        else if file == Unreadable then Failure(LoadFailed)
        else Success((pool + [Sprite(path, [owner])], Sprite(path, [owner])))
  }

  /**
   * `unload_sprite`: an unknown path is ignored; the user leaves the
   * sprite's list (ValueError when it is not on it), and a sprite left
   * without users leaves the pool.
   */
  function Unloaded(pool: seq<Sprite>, path: string, owner: Owner): (r: Result<seq<Sprite>, SpriteError>)
  {
    match Find(pool, path)
    case None => Success(pool)
    case Some(i) =>
      match RemoveFirst(pool[i].references, owner)
      case None => Failure(NotReferenced)
      case Some(rest) =>
        if |rest| < 1 then Success(pool[..i] + pool[i + 1..])
        else Success(pool[i := pool[i].(references := rest)])
  }

  /**
   * Loading fails exactly for a falsy user or an unpooled path whose file
   * is not a readable image. Otherwise the path is pooled, the sprite
   * handed out is the pooled one, its users end with the new one, and
   * every other pooled sprite is unchanged.
   */
  lemma LoadedSpec(pool: seq<Sprite>, path: string, owner: Owner, file: FileStatus)
    requires PoolValid(pool)
    ensures var r := Loaded(pool, path, owner, file);
      (r.Failure? <==> owner == 0 || (Find(pool, path).None? && file != Image)) &&
      (r.Success? ==>
        PoolValid(r.value.0) &&
        Find(r.value.0, path).Some? && r.value.0[Find(r.value.0, path).value] == r.value.1 &&
        r.value.1.path == path &&
        r.value.1.references == (if Find(pool, path).Some? then pool[Find(pool, path).value].references else []) + [owner] &&
        forall j :: 0 <= j < |pool| && pool[j].path != path ==> j < |r.value.0| && r.value.0[j] == pool[j])
  {
    if owner != 0 {
      match Find(pool, path)
      case Some(i) =>
        UpdatedValid(pool, i, pool[i].(references := pool[i].references + [owner]));
      case None =>
        if file == Image {
          AppendedValid(pool, Sprite(path, [owner]));
        }
    }
  }

  /** A path's first position in the pool is what `Find` answers. */
  lemma FindAt(pool: seq<Sprite>, path: string, i: nat)
    requires i < |pool| && pool[i].path == path
    requires forall j :: 0 <= j < i ==> pool[j].path != path
    ensures Find(pool, path) == Some(i)
  {
    assert Find(pool, path).Some?;
  }

  /** Replacing a sprite by one with the same path and users keeps a valid pool valid. */
  lemma UpdatedValid(pool: seq<Sprite>, i: nat, s: Sprite)
    requires PoolValid(pool) && i < |pool|
    requires s.path == pool[i].path && |s.references| > 0 && 0 !in s.references
    ensures PoolValid(pool[i := s])
    ensures Find(pool[i := s], s.path) == Some(i)
  {
    var next := pool[i := s];
    assert forall j :: 0 <= j < |next| ==> next[j].path == pool[j].path;
    FindAt(next, s.path, i);
  }

  /** Appending a sprite for a path not pooled yet keeps a valid pool valid. */
  lemma AppendedValid(pool: seq<Sprite>, s: Sprite)
    requires PoolValid(pool) && Find(pool, s.path).None?
    requires |s.references| > 0 && 0 !in s.references
    ensures PoolValid(pool + [s])
    ensures Find(pool + [s], s.path) == Some(|pool|)
  {
    var next := pool + [s];
    assert forall j :: 0 <= j < |pool| ==> next[j] == pool[j];
    FindAt(next, s.path, |pool|);
  }

  /** Dropping a sprite of a valid pool keeps it valid, and its path no longer appears. */
  lemma DroppedValid(pool: seq<Sprite>, i: nat)
    requires PoolValid(pool) && i < |pool|
    ensures PoolValid(pool[..i] + pool[i + 1..])
    ensures Find(pool[..i] + pool[i + 1..], pool[i].path).None?
    ensures forall j :: 0 <= j < |pool| && j != i ==> pool[j] in pool[..i] + pool[i + 1..]
  {
    var next := pool[..i] + pool[i + 1..];
    forall a | 0 <= a < |next|
      ensures next[a] == pool[if a < i then a else a + 1]
    {
    }
    forall a, b | 0 <= a < b < |next|
      ensures next[a].path != next[b].path
    {
      var pa := if a < i then a else a + 1;
      var pb := if b < i then b else b + 1;
      assert pa < pb;
    }
    forall a | 0 <= a < |next|
      ensures next[a].path != pool[i].path
    {
      var pa := if a < i then a else a + 1;
      assert pa != i;
    }
    forall j | 0 <= j < |pool| && j != i
      ensures pool[j] in next
    {
      assert next[if j < i then j else j - 1] == pool[j];
    }
  }

  /** A user letting go of a sprite it still shares with others keeps the pool valid. */
  lemma KeptValid(pool: seq<Sprite>, i: nat, owner: Owner, rest: seq<Owner>)
    requires PoolValid(pool) && i < |pool|
    requires RemoveFirst(pool[i].references, owner) == Some(rest) && |rest| >= 1
    ensures PoolValid(pool[i := pool[i].(references := rest)])
    ensures Find(pool[i := pool[i].(references := rest)], pool[i].path) == Some(i)
    ensures forall j :: 0 <= j < |pool| && j != i ==> pool[j] in pool[i := pool[i].(references := rest)]
  {
    RemoveFirstKeeps(pool[i].references, owner);
    UpdatedValid(pool, i, pool[i].(references := rest));
    var next := pool[i := pool[i].(references := rest)];
    forall j | 0 <= j < |pool| && j != i
      ensures pool[j] in next
    {
      assert next[j] == pool[j];
    }
  }

  /**
   * Unloading an unknown path changes nothing; otherwise it fails exactly
   * when the user does not hold the sprite. On success the pool stays
   * valid, every other sprite stays pooled, the user holds one entry less,
   * and the sprite leaves the pool with its last user.
   */
  lemma UnloadedSpec(pool: seq<Sprite>, path: string, owner: Owner)
    requires PoolValid(pool)
    ensures var r := Unloaded(pool, path, owner);
      (Find(pool, path).None? ==> r == Success(pool)) &&
      (r.Failure? <==> Find(pool, path).Some? && owner !in pool[Find(pool, path).value].references) &&
      (r.Success? ==> PoolValid(r.value)) &&
      (r.Success? ==> forall j :: 0 <= j < |pool| && pool[j].path != path ==> pool[j] in r.value) &&
      (r.Success? && Find(pool, path).Some? ==>
        var i := Find(pool, path).value;
        var s := pool[i];
        if |s.references| == 1 then Find(r.value, path).None? && |r.value| == |pool| - 1
        else (Find(r.value, path) == Some(i) && |r.value| == |pool| &&
              (forall j :: 0 <= j < |pool| && j != i ==> r.value[j] == pool[j]) &&
              multiset(r.value[i].references) == multiset(s.references) - multiset{owner}))
  {
    match Find(pool, path)
    case None =>
    case Some(i) =>
      match RemoveFirst(pool[i].references, owner)
      case None =>
      case Some(rest) =>
        if |rest| < 1 {
          DroppedValid(pool, i);
        } else {
          KeptValid(pool, i, owner, rest);
        }
  }

  /**
   * Loading a sprite and unloading it again, by a user that did not
   * already hold it, gives back the pool it started from.
   */
  lemma LoadThenUnload(pool: seq<Sprite>, path: string, owner: Owner, file: FileStatus)
    requires PoolValid(pool)
    requires Loaded(pool, path, owner, file).Success?
    requires Find(pool, path).Some? ==> owner !in pool[Find(pool, path).value].references
    ensures Unloaded(Loaded(pool, path, owner, file).value.0, path, owner) == Success(pool)
  {
    match Find(pool, path)
    case Some(i) =>
      UnloadAdded(pool, i, owner);
    case None =>
      UnloadAppended(pool, path, owner);
  }

  /** The pooled case of `LoadThenUnload`. */
  lemma UnloadAdded(pool: seq<Sprite>, i: nat, owner: Owner)
    requires PoolValid(pool) && i < |pool| && owner != 0 && owner !in pool[i].references
    ensures Unloaded(pool[i := pool[i].(references := pool[i].references + [owner])], pool[i].path, owner) == Success(pool)
  {
    var s := pool[i].(references := pool[i].references + [owner]);
    var next := pool[i := s];
    UpdatedValid(pool, i, s);
    assert next[i] == s;
    RemoveAppended(pool[i].references, owner);
    assert next[i := pool[i]] == pool;
  }

  /** The new-sprite case of `LoadThenUnload`. */
  lemma UnloadAppended(pool: seq<Sprite>, path: string, owner: Owner)
    requires PoolValid(pool) && Find(pool, path).None? && owner != 0
    ensures Unloaded(pool + [Sprite(path, [owner])], path, owner) == Success(pool)
  {
    var next := pool + [Sprite(path, [owner])];
    AppendedValid(pool, Sprite(path, [owner]));
    assert RemoveFirst([owner], owner) == Some([]) by {
      RemoveAppended([], owner);
    }
    assert next[..|pool|] + next[|pool| + 1..] == pool;
  }

  /** The class-level pool of `SpriteManager`. */
  class SpriteManager {
    var sprites: seq<Sprite>

    constructor ()
      ensures sprites == []
    {
      sprites := [];
    }

    /** The scan of `get_sprite`, answering where the sprite sits in the pool. */
    method Lookup(path: string) returns (r: Option<nat>)
      ensures r == Find(sprites, path)
    {
      var i := 0;
      while i < |sprites|
        invariant 0 <= i <= |sprites|
        invariant forall j :: 0 <= j < i ==> sprites[j].path != path
      {
        if sprites[i].path == path {
          return Some(i);
        }
        i := i + 1;
      }
      return None;
    }

    /** `get_sprite`: the pooled sprite with the path, if any. */
    method GetSprite(path: string) returns (r: Option<Sprite>)
      ensures r.Some? <==> exists j :: 0 <= j < |sprites| && sprites[j].path == path
      ensures r.Some? ==> r.value.path == path && r.value in sprites
    {
      var i := Lookup(path);
      if i.Some? {
        return Some(sprites[i.value]);
      }
      return None;
    }

    /** `load_sprite`. */
    method LoadSprite(path: string, owner: Owner, file: FileStatus) returns (r: Result<Sprite, SpriteError>)
      modifies this
      ensures var l := Loaded(old(sprites), path, owner, file);
        (l.Failure? ==> r == Failure(l.error) && sprites == old(sprites)) &&
        (l.Success? ==> r == Success(l.value.1) && sprites == l.value.0)
    {
      if owner == 0 {
        return Failure(NoReference);
      }
      var i := Lookup(path);
      if i.Some? {
        var s := sprites[i.value].(references := sprites[i.value].references + [owner]);
        sprites := sprites[i.value := s];
        return Success(s);
      }
      if file == Missing {
        return Failure(FileNotFound);
      }
      if file == Unreadable {
        return Failure(LoadFailed);
      }
      var s := Sprite(path, [owner]);
      sprites := sprites + [s];
      return Success(s);
    }

    /** `unload_sprite`, with the ValueError of `list.remove` as a result. */
    method UnloadSprite(path: string, owner: Owner) returns (err: Option<SpriteError>)
      modifies this
      ensures var u := Unloaded(old(sprites), path, owner);
        (u.Failure? ==> err == Some(u.error) && sprites == old(sprites)) &&
        (u.Success? ==> err.None? && sprites == u.value)
    {
      var i := Lookup(path);
      if i.None? {
        return None;
      }
      var refs := RemoveFirst(sprites[i.value].references, owner);
      if refs.None? {
        return Some(NotReferenced);
      }
      if |refs.value| < 1 {
        sprites := sprites[..i.value] + sprites[i.value + 1..];
      } else {
        sprites := sprites[i.value := sprites[i.value].(references := refs.value)];
      }
      return None;
    }
  }
}
