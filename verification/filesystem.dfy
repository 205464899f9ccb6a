/** `Rename::apply` over an abstract filesystem: a finite map from path to
    the entry stored there. `std::fs::rename` either moves the entry
    atomically or fails and changes nothing; why it fails beyond a missing
    source (permissions, another device) is outside the map, so the caller
    supplies the moves the system refuses. Paths are flat keys: the map has
    no directory hierarchy. */
module FileSystem {
  import opened Wrappers
  import opened Base

  /** The bytes stored under one name. */
  type Content = seq<bv8>

  type Fs = map<Path, Content>

  /** Source and destination of a move the operating system refuses. */
  type Refusals = set<(Path, Path)>

  datatype IoError = NotFound(path: Path) | Refused(source: Path, dest: Path)

  /** The value `apply` returns (`Ok(true)` moved, `Ok(false)` naming
      conflict, `Err` failed rename) and the filesystem after it. */
  datatype Applied = Applied(result: Result<bool, IoError>, fs: Fs)

  function Lookup(fs: Fs, p: Path): Option<Content>
  {
    if p in fs then Some(fs[p]) else None
  }

  /** `fs'` is `fs` with the entry at `source` now found at `dest`, and
      every other path as it was. */
  ghost predicate MovedEntry(fs: Fs, fs': Fs, source: Path, dest: Path)
  {
    && source in fs
    && Lookup(fs', dest) == Some(fs[source])
    && source !in fs'
    && (forall p :: p != source && p != dest ==> Lookup(fs', p) == Lookup(fs, p))
  }

  /** `Rename::apply`: a rule whose destination exists is a naming conflict
      and does nothing; otherwise the source is renamed, and a rename that
      fails leaves the filesystem as it was. */
  function Apply(r: Rename, fs: Fs, refused: Refusals): (a: Applied)
    ensures r.dest in fs ==> a == Applied(Success(false), fs)
    ensures r.dest !in fs && r.source in fs && (r.source, r.dest) !in refused ==>
              a.result == Success(true) && MovedEntry(fs, a.fs, r.source, r.dest)
    ensures r.dest !in fs && r.source !in fs ==> a == Applied(Failure(NotFound(r.source)), fs)
    ensures r.dest !in fs && (r.source, r.dest) in refused ==> a.result.Failure? && a.fs == fs
  {
    if r.dest in fs then Applied(Success(false), fs)
    else if r.source !in fs then Applied(Failure(NotFound(r.source)), fs)
    else if (r.source, r.dest) in refused then Applied(Failure(Refused(r.source, r.dest)), fs)
    else Applied(Success(true), (fs - {r.source})[r.dest := fs[r.source]])
  }

  /** Removing a key keeps every other entry's content. */
  lemma ValuesRemove(fs: Fs, k: Path)
    requires k in fs
    ensures fs.Values == (fs - {k}).Values + {fs[k]}
  {
    var rest := fs - {k};
    forall v | v in fs.Values
      ensures v in rest.Values + {fs[k]}
    {
      var p :| p in fs && fs[p] == v;
      if p != k {
        assert rest[p] == v;
      }
    }
  }

  /** Adding a fresh key adds its content. */
  lemma ValuesAdd(m: Fs, k: Path, v: Content)
    requires k !in m
    ensures m[k := v].Values == m.Values + {v}
  {
    var m' := m[k := v];
    forall w | w in m'.Values
      ensures w in m.Values + {v}
    {
      var p :| p in m' && m'[p] == w;
      if p != k {
        assert m[p] == w;
      }
    }
    forall w | w in m.Values
      ensures w in m'.Values
    {
      var p :| p in m && m[p] == w;
      assert m'[p] == w;
    }
    assert m'[k] == v;
  }

  /** A rename keeps the number of entries and the set of contents: it
      neither overwrites nor loses anything. */
  lemma ApplyConserves(r: Rename, fs: Fs, refused: Refusals)
    ensures |Apply(r, fs, refused).fs| == |fs|
    ensures Apply(r, fs, refused).fs.Values == fs.Values
  {
    var a := Apply(r, fs, refused);
    if a.result == Success(true) {
      var rest := fs - {r.source};
      assert a.fs == rest[r.dest := fs[r.source]];
      assert |rest| == |fs| - 1 by {
        assert rest.Keys == fs.Keys - {r.source};
      }
      ValuesRemove(fs, r.source);
      ValuesAdd(rest, r.dest, fs[r.source]);
    }
  }

  /** Renaming back undoes a successful rename. */
  lemma ApplyUndo(r: Rename, fs: Fs, refused: Refusals)
    requires Apply(r, fs, refused).result == Success(true)
    requires (r.dest, r.source) !in refused
    ensures Apply(Rename.New(r.dest, r.source), Apply(r, fs, refused).fs, refused)
            == Applied(Success(true), fs)
  {
    var fs' := Apply(r, fs, refused).fs;
    var back := Apply(Rename.New(r.dest, r.source), fs', refused);
    assert back.fs == fs by {
      assert back.fs.Keys == fs.Keys;
      forall p | p in fs
        ensures back.fs[p] == fs[p]
      {
        if p != r.source {
          assert Lookup(fs', p) == Lookup(fs, p);
        }
      }
    }
  }
}
