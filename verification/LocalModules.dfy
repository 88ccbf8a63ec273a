/** Modules in directories: their files, and how a change is noticed
    (internal/fetch/getters.go, `mtime`, `Info` and `HasChanged`). */
module LocalModules {

  /** A modification time; Go's zero time is before all of them and written 0. */
  type Time = x: int | x > 0 witness 1

  datatype File = File(content: int, time: Time)

  type Files = map<string, File>
  type Content = map<string, int>

  /** Two seconds, in milliseconds: a more recent edit may be followed by another within the
      same tick of the file system's clock. */
  const WINDOW := 2000

  function ContentOf(files: Files): Content {
    map n | n in files :: files[n].content
  }

  /** The latest time of the files that the packages were compiled from, or 0 if none of these
      is there. Other files do not matter. */
  function MaxTime(names: seq<string>, files: Files): (t: nat)
    ensures forall i :: 0 <= i < |names| && names[i] in files ==> files[names[i]].time <= t
    ensures t > 0 ==> exists i :: 0 <= i < |names| && names[i] in files && files[names[i]].time == t
  {
    if names == [] then 0
    else
      var k := |names| - 1;
      var t := MaxTime(names[..k], files);
      assert forall i :: 0 <= i < k ==> names[..k][i] == names[i];
      if names[k] in files && files[names[k]].time > t then files[names[k]].time else t
  }

  /** What `mtime` reports: nothing if there is no file, or if the latest edit is recent. */
  function KnownTime(names: seq<string>, files: Files, now: int): nat {
    var t := MaxTime(names, files);
    if now < t + WINDOW then 0 else t
  }

  /** `HasChanged`. */
  predicate HasChanged(names: seq<string>, files: Files, now: int, commitTime: nat) {
    KnownTime(names, files, now) == 0 || KnownTime(names, files, now) > commitTime
  }

  /** The loop of `mtime`. */
  method Mtime(names: seq<string>, files: Files, now: int) returns (t: nat)
    ensures t == KnownTime(names, files, now)
  {
    t := 0;
    for i := 0 to |names|
      invariant t == MaxTime(names[..i], files)
    {
      assert names[..i + 1][..i] == names[..i];
      if names[i] in files && (t == 0 || files[names[i]].time > t) {
        t := files[names[i]].time;
      }
    }
    assert names[..|names|] == names;
    if t != 0 && now - t < WINDOW {
      t := 0;
    }
  }

  /** An edit, made at a time, that a later check cannot miss: it raises the latest time; or it
      leaves that time and the content alone; or it keeps the time while that is still recent,
      or while there is none. */
  predicate Noticed(names: seq<string>, now: int, before: Files, after: Files) {
    var t, t' := MaxTime(names, before), MaxTime(names, after);
    t' > t || (t' == t && (t == 0 || ContentOf(after) == ContentOf(before) || now < t + WINDOW))
  }

  /** Deleting a file is not noticed; nor is adding or editing one that is not compiled. */
  lemma MissedEdits(names: seq<string>, now: int, before: Files, n: string, f: File)
    requires MaxTime(names, before) + WINDOW <= now && MaxTime(names, before) > 0
    ensures n in before ==> !Noticed(names, now, before, before - {n})
    ensures n !in names && (n in before ==> before[n].content != f.content) ==>
      !Noticed(names, now, before, before[n := f])
  {
    var t := MaxTime(names, before);
    if n in before {
      assert n in ContentOf(before) && n !in ContentOf(before - {n});
      MaxWithout(names, before, n);
    }
    if n !in names {
      MaxSame(names, before, before[n := f]);
      assert n in ContentOf(before[n := f]);
      if n in before {
        assert ContentOf(before)[n] == before[n].content && ContentOf(before[n := f])[n] == f.content;
      }
    }
  }

  lemma {:induction false} MaxSame(names: seq<string>, a: Files, b: Files)
    requires forall i :: 0 <= i < |names| ==>
      (names[i] in a <==> names[i] in b) && (names[i] in a ==> a[names[i]].time == b[names[i]].time)
    ensures MaxTime(names, a) == MaxTime(names, b)
  {
    if names != [] {
      var k := |names| - 1;
      assert names[k] in a <==> names[k] in b;
      MaxSame(names[..k], a, b);
    }
  }

  lemma MaxWithout(names: seq<string>, files: Files, n: string)
    ensures MaxTime(names, files - {n}) <= MaxTime(names, files)
  {
    var t := MaxTime(names, files - {n});
    if t > 0 {
      var i :| 0 <= i < |names| && names[i] in files - {n} && (files - {n})[names[i]].time == t;
      assert names[i] in files && files[names[i]].time == t;
    }
  }

  /** An edit of the newest compiled file that keeps its time. */
  lemma Disguise(names: seq<string>, files: Files) returns (files': Files)
    requires MaxTime(names, files) > 0
    ensures MaxTime(names, files') == MaxTime(names, files) && ContentOf(files') != ContentOf(files)
  {
    var t := MaxTime(names, files);
    var i :| 0 <= i < |names| && names[i] in files && files[names[i]].time == t;
    var n := names[i];
    files' := files[n := File(files[n].content + 1, t)];
    MaxSame(names, files, files');
    assert ContentOf(files')[n] == files[n].content + 1 && ContentOf(files)[n] == files[n].content;
  }
}
