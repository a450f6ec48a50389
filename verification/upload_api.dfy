/**
 The image upload route (`app/api/upload/route.ts`): checks the file's
 presence, type and size in that order, then stores it under a fresh name
 in the chosen folder. The clock, the random suffix and the storage call are
 inputs.
 */
module UploadApi {
  import opened Wrappers
  import opened Text
  import opened Rows
  import opened Http

  const NoFileError := "No se proporcionó archivo"
  const TypeError := "Tipo de archivo no válido. Use JPG, PNG, WebP o GIF"
  const SizeError := "El archivo es muy grande. Máximo 5MB"
  const StoragePrefix := "Error al subir imagen: "
  const DefaultFolder := "imgs"
  const ValidTypes := ["image/jpeg", "image/png", "image/webp", "image/gif"]
  const MaxSize := 5 * 1024 * 1024

  /** The uploaded form file. */
  datatype File = File(name: string, mime: string, size: nat)

  /** What is handed to storage: the object path, its content type, and
      whether an existing object may be replaced. */
  datatype Upload = Upload(path: string, contentType: string, overwrite: bool)

  /** `name.split('.').pop()`: the text after the last `.`, or the whole
      name when there is none. */
  function Ext(name: string): (r: string)
    ensures '.' !in r && |r| <= |name|
    ensures r == name[|name| - |r|..]
    ensures '.' in name ==> |r| < |name| && name[|name| - |r| - 1] == '.'
    ensures '.' !in name ==> r == name
  {
    if name == [] then []
    else
      var last := name[|name| - 1];
      var init := name[..|name| - 1];
      assert name == init + [last];
      if last == '.' then []
      else
        var e := Ext(init);
        var r := e + [last];
        assert name[|name| - |r|..] == init[|init| - |e|..] + [last];
        assert '.' in name ==> '.' in init && name[|name| - |r| - 1] == init[|init| - |e| - 1];
        r
  }

  /** A name ending in `.` and an extension without dots has that
      extension. */
  lemma {:induction false} ExtAfterDot(p: string, e: string)
    requires '.' !in e
    ensures Ext(p + "." + e) == e
  {
    var s := p + "." + e;
    if e == [] {
      assert s[|s| - 1] == '.';
    } else {
      var init := e[..|e| - 1];
      assert e == init + [e[|e| - 1]];
      ExtAfterDot(p, init);
      assert s[..|s| - 1] == p + "." + init;
    }
  }

  /** `POST /api/upload`: `now` stands for `Date.now()`, `suffix` for the
      random base-36 text, `storageError` for the storage answer (`None` on
      success). */
  function Post(file: Option<File>, folder: Option<string>, now: nat, suffix: string, storageError: Option<string>)
    : (r: Reply<Upload>)
    ensures file.None? ==> r == Fail(400, NoFileError)
    ensures file.Some? && file.value.mime !in ValidTypes ==> r == Fail(400, TypeError)
    ensures file.Some? && file.value.mime in ValidTypes && file.value.size > MaxSize ==> r == Fail(400, SizeError)
    ensures r.Ok? <==> file.Some? && file.value.mime in ValidTypes && file.value.size <= MaxSize && storageError.None?
    ensures r.Ok? ==> r.body.path == ObjectPath(OrText(folder, DefaultFolder), now, suffix, Ext(file.value.name))
    ensures r.Ok? ==> StartsWith(r.body.path, OrText(folder, DefaultFolder) + "/")
    ensures r.Ok? ==> Ext(r.body.path) == Ext(file.value.name)
    ensures r.Ok? ==> r.body.contentType == file.value.mime && !r.body.overwrite
  {
    var dir := OrText(folder, DefaultFolder);
    if file.None? then Fail(400, NoFileError)
    else if file.value.mime !in ValidTypes then Fail(400, TypeError)
    else if file.value.size > MaxSize then Fail(400, SizeError)
    else
      if storageError.Some? then Fail(500, StoragePrefix + storageError.value)
      else Ok(Upload(ObjectPath(dir, now, suffix, Ext(file.value.name)), file.value.mime, false))
  }

  /** `${folder}/${timestamp}-${random}.${ext}`. */
  function ObjectPath(dir: string, now: nat, suffix: string, ext: string): (p: string)
    requires '.' !in ext
    ensures p == dir + "/" + NatToString(now) + "-" + suffix + "." + ext
    ensures StartsWith(p, dir + "/") && Ext(p) == ext
  {
    var head := dir + "/";
    var stamped := head + NatToString(now);
    var stem := stamped + "-" + suffix;
    ExtAfterDot(stem, ext);
    ConcatEnds(head, NatToString(now));
    StartsWithConcat(stamped, "-", head);
    StartsWithConcat(stamped + "-", suffix, head);
    StartsWithConcat(stem, ".", head);
    StartsWithConcat(stem + ".", ext, head);
    stem + "." + ext
  }

  /** Names are unique per upload: in one folder and for one extension,
      two uploads with a different timestamp or a different random part
      (base-36 text, so without `-`) get different paths. */
  lemma DistinctStampsDistinctPaths(dir: string, n1: nat, s1: string, n2: nat, s2: string, ext: string)
    requires '.' !in ext && '-' !in s1 && '-' !in s2
    requires ObjectPath(dir, n1, s1, ext) == ObjectPath(dir, n2, s2, ext)
    ensures n1 == n2 && s1 == s2
  {
    var a1 := NatToString(n1) + "-" + s1;
    var a2 := NatToString(n2) + "-" + s2;
    var head, tail := dir + "/", "." + ext;
    Regroup(dir, NatToString(n1), s1, ext, ObjectPath(dir, n1, s1, ext));
    Regroup(dir, NatToString(n2), s2, ext, ObjectPath(dir, n2, s2, ext));
    MiddleEqual(head, a1, a2, tail);
    NoDashInDigits(NatToString(n1));
    NoDashInDigits(NatToString(n2));
    SplitAtFirstDash(NatToString(n1), s1, NatToString(n2), s2);
    NatToStringRoundTrip(n1);
    NatToStringRoundTrip(n2);
  }

  lemma Regroup(dir: string, stamp: string, suffix: string, ext: string, p: string)
    requires p == dir + "/" + stamp + "-" + suffix + "." + ext
    ensures p == (dir + "/") + (stamp + "-" + suffix) + ("." + ext)
  {}

  lemma MiddleEqual(head: string, a1: string, a2: string, tail: string)
    requires head + a1 + tail == head + a2 + tail
    ensures a1 == a2
  {
    var p := head + a1 + tail;
    assert a1 == p[|head|..|p| - |tail|];
    assert a2 == (head + a2 + tail)[|head|..|p| - |tail|];
  }

  lemma NoDashInDigits(d: string)
    requires AllDigits(d)
    ensures '-' !in d
  {
    forall i | 0 <= i < |d| ensures d[i] != '-' {
      assert IsDigit(d[i]);
    }
  }

  /** Position of the first `-` in `s`, or `|s|` when there is none. */
  function DashAt(s: string): (r: nat)
    ensures r <= |s|
    ensures forall i :: 0 <= i < r ==> s[i] != '-'
    ensures r < |s| ==> s[r] == '-'
  {
    if s == [] || s[0] == '-' then 0 else 1 + DashAt(s[1..])
  }

  lemma {:induction false} DashAtJoin(x: string, y: string)
    requires '-' !in x
    ensures DashAt(x + "-" + y) == |x|
    decreases |x|
  {
    var a := x + "-" + y;
    if x == [] {
      assert a[0] == '-';
    } else {
      assert a[0] == x[0];
      assert a[1..] == x[1..] + "-" + y;
      DashAtJoin(x[1..], y);
    }
  }

  /** Text joined at a dash splits back at its first dash. */
  lemma SplitAtFirstDash(x: string, y: string, u: string, v: string)
    requires '-' !in x && '-' !in u
    requires x + "-" + y == u + "-" + v
    ensures x == u && y == v
  {
    var a := x + "-" + y;
    DashAtJoin(x, y);
    DashAtJoin(u, v);
    assert x == a[..|x|];
    assert u == (u + "-" + v)[..|u|];
    assert y == a[|x| + 1..];
    assert v == (u + "-" + v)[|u| + 1..];
  }

  /** The bound is inclusive: a file of exactly 5 MiB is accepted. */
  lemma ExactlyFiveMegabytesAccepted(name: string, now: nat, suffix: string)
    ensures Post(Some(File(name, "image/png", 5242880)), None, now, suffix, None).Ok?
  {}

  /** An empty folder field means the default folder. */
  lemma EmptyFolderIsDefault(f: File, now: nat, suffix: string)
    ensures Post(Some(f), Some(""), now, suffix, None) == Post(Some(f), None, now, suffix, None)
    ensures Post(Some(f), Some(""), now, suffix, None).Ok? ==>
      StartsWith(Post(Some(f), Some(""), now, suffix, None).body.path, "imgs/")
  {
    EmptyFolderSamePost(f, now, suffix);
    if Post(Some(f), None, now, suffix, None).Ok? {
      DefaultFolderPath(f, now, suffix);
    }
  }

  lemma EmptyFolderSamePost(f: File, now: nat, suffix: string)
    ensures Post(Some(f), Some(""), now, suffix, None) == Post(Some(f), None, now, suffix, None)
  {}

  lemma DefaultFolderPath(f: File, now: nat, suffix: string)
    requires Post(Some(f), None, now, suffix, None).Ok?
    ensures StartsWith(Post(Some(f), None, now, suffix, None).body.path, "imgs/")
  {
    var r := Post(Some(f), None, now, suffix, None);
    assert StartsWith(r.body.path, DefaultFolder + "/");
  }
}
