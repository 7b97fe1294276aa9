/** File storage (js/storage.js): the object name an upload is stored under,
    and the object path `deleteFile` recovers from a public URL. The calls
    into the storage service themselves are not part of this model. */
module Storage {
  import opened Results
  import opened Text
  import opened Store

  // ---------------------------------------------------------------- extension

  /** `name.split('.').pop()`: the text after the last '.', or the whole name
      when it has no '.'. */
  function FileExtension(name: string): (ext: string)
    ensures '.' !in ext
    ensures |ext| <= |name| && name[|name| - |ext|..] == ext
    ensures '.' !in name ==> ext == name
    ensures '.' in name ==> |ext| < |name| && name[|name| - |ext| - 1] == '.'
  {
    var parts := Split(name, ".");
    var ext := parts[|parts| - 1];
    assert ext in parts;
    ContainsChar(ext, '.');
    if |parts| == 1 then
      ext
    else
      JoinLast(parts, ".");
      ext
  }

  /** When `name` ends in '.' followed by `ext` and `ext` has no '.', that is
      the extension of `name`: whatever precedes the last dot does not matter. */
  lemma {:induction false} ExtensionOfSuffix(prefix: string, ext: string)
    requires '.' !in ext
    ensures FileExtension(prefix + "." + ext) == ext
  {
    var name := prefix + "." + ext;
    assert name[|prefix|] == '.';
    assert name[|name| - |ext|..] == ext;
  }

  // ------------------------------------------------------------------ upload

  /** The object name of `uploadFile(file, bucket, folder)`, before the
      upload itself: refused without a file (checked first), then without a
      signed-in user; otherwise `${folder}/${user.id}_${Date.now()}.${ext}`,
      with `timestamp` standing for `Date.now()`. */
  function UploadFileName(fileName: Option<string>, user: Option<User>, folder: string, timestamp: nat): (r: Result<string>)
    ensures fileName.None? ==> r == Err(NoFileSelected)
    ensures fileName.Some? && user.None? ==> r == Err(NotAuthenticated)
    ensures r.Ok? ==> fileName.Some? && user.Some?
    ensures r.Ok? ==>
      var n := r.value;
      && |n| > |folder| && n[..|folder|] == folder && n[|folder|] == '/'
      && OccursAt(n, user.value.id + "_", |folder| + 1)
      && FileExtension(n) == FileExtension(fileName.value)
    ensures r.Ok? ==>
      r.value == folder + "/" + user.value.id + "_" + DecimalString(timestamp) + "." + FileExtension(fileName.value)
  {
    if fileName.None? then Err(NoFileSelected)
    else if user.None? then Err(NotAuthenticated)
    else
      var ext := FileExtension(fileName.value);
      var digits := DecimalString(timestamp);
      StoredNameShape(folder, user.value.id, digits, ext);
      Ok(folder + "/" + user.value.id + "_" + digits + "." + ext)
  }

  /** The name is unique per timestamp: the same file, user and folder at two
      different times give two different object names. */
  lemma {:induction false} UploadNamesDiffer(fileName: string, user: User, folder: string, t1: nat, t2: nat)
    requires t1 != t2
    ensures UploadFileName(Some(fileName), Some(user), folder, t1).Ok?
    ensures UploadFileName(Some(fileName), Some(user), folder, t2).Ok?
    ensures UploadFileName(Some(fileName), Some(user), folder, t1).value !=
            UploadFileName(Some(fileName), Some(user), folder, t2).value
  {
    var n1 := UploadFileName(Some(fileName), Some(user), folder, t1).value;
    var n2 := UploadFileName(Some(fileName), Some(user), folder, t2).value;
    var p := folder + "/" + user.id + "_";
    var x := FileExtension(fileName);
    var d1, d2 := DecimalString(t1), DecimalString(t2);
    if n1 == n2 {
      MiddleEqual(p, d1, d2, ".", x);
      DecimalStringInjective(t1, t2);
    }
  }

  /** Two strings with the same prefix and the same suffix agree in between. */
  lemma MiddleEqual(p: string, d1: string, d2: string, e1: string, e2: string)
    requires p + d1 + e1 + e2 == p + d2 + e1 + e2
    ensures d1 == d2
  {
    var n := p + d1 + e1 + e2;
    assert d1 == n[|p|..|p| + |d1|];
    assert d2 == (p + d2 + e1 + e2)[|p|..|p| + |d2|];
  }

  /** The parts of a stored object name can be read back from it: the folder
      and '/', then the user id and '_', and the extension after the last '.'. */
  lemma {:induction false} StoredNameShape(folder: string, uid: string, digits: string, ext: string)
    requires '.' !in ext
    ensures var n := folder + "/" + uid + "_" + digits + "." + ext;
      && |n| > |folder| && n[..|folder|] == folder && n[|folder|] == '/'
      && OccursAt(n, uid + "_", |folder| + 1)
      && FileExtension(n) == ext
  {
    var stem := folder + "/" + uid + "_" + digits;
    var n := stem + "." + ext;
    assert n == folder + "/" + (uid + "_") + digits + "." + ext;
    assert n[|folder| + 1..|folder| + 1 + |uid + "_"|] == uid + "_";
    ExtensionOfSuffix(stem, ext);
  }

  /** With the default empty folder, the object name starts with '/'. */
  lemma DefaultFolderLeadingSlash(fileName: string, user: User, timestamp: nat)
    ensures UploadFileName(Some(fileName), Some(user), "", timestamp).Ok?
    ensures UploadFileName(Some(fileName), Some(user), "", timestamp).value[0] == '/'
  {
  }

  // ------------------------------------------------------------------ delete

  /** The object path of `deleteFile(url, bucket)`: the piece of
      `url.split(bucket + '/')` after the first separator; a URL without the
      separator, or with nothing between it and the next one or the end, is
      refused. */
  function DeleteFilePath(url: string, bucket: string): (r: Result<string>)
    ensures r.Err? ==> r.error == InvalidUrl
    ensures r.Ok? <==> PieceAfterFirst(url, bucket + "/").Some? && PieceAfterFirst(url, bucket + "/").value != ""
    ensures r.Ok? ==> r.value == PieceAfterFirst(url, bucket + "/").value
    ensures r.Ok? ==> r.value != "" && !Contains(r.value, bucket + "/")
    ensures r.Ok? ==>
      && IndexOf(url, bucket + "/").Some?
      && OccursAt(url, r.value, IndexOf(url, bucket + "/").value + |bucket + "/"|)
    ensures r.Ok? ==>
      var end := IndexOf(url, bucket + "/").value + |bucket + "/"| + |r.value|;
      end == |url| || OccursAt(url, bucket + "/", end)
    ensures !Contains(url, bucket + "/") ==> r == Err(InvalidUrl)
  {
    var sep := bucket + "/";
    var parts := Split(url, sep);
    SplitSecond(url, sep);
    if |parts| < 2 || parts[1] == "" then Err(InvalidUrl)
    else Ok(parts[1])
  }

  /** The piece of `s` between the first `sep` and the next one or the end,
      found with `indexOf` alone; `None` when `s` has no `sep`. */
  function PieceAfterFirst(s: string, sep: string): (r: Option<string>)
    requires |sep| > 0
    ensures r.None? <==> !Contains(s, sep)
    ensures r.Some? ==> !Contains(r.value, sep)
    ensures r.Some? ==> OccursAt(s, r.value, IndexOf(s, sep).value + |sep|)
    ensures r.Some? ==>
      var end := IndexOf(s, sep).value + |sep| + |r.value|;
      end == |s| || OccursAt(s, sep, end)
  {
    match IndexOf(s, sep)
    case None => None
    case Some(i) =>
      var k := i + |sep|;
      var rest := s[k..];
      match IndexOf(rest, sep)
      case None =>
        assert s[k..k + |rest|] == rest;
        Some(rest)
      case Some(j) =>
        PieceBeforeNext(s, k, sep, j);
        Some(rest[..j])
  }

  /** In the suffix from `k`, the text before the first `sep` (found at `j`)
      holds no `sep`, sits at `k`, and is followed by `sep`. */
  lemma {:induction false} PieceBeforeNext(s: string, k: nat, sep: string, j: nat)
    requires k <= |s| && |sep| > 0 && IndexOf(s[k..], sep) == Some(j)
    ensures !Contains(s[k..][..j], sep)
    ensures OccursAt(s, s[k..][..j], k) && OccursAt(s, sep, k + j)
  {
    var rest := s[k..];
    NoOccurrenceBefore(rest, sep, j);
    assert s[k..k + j] == rest[..j];
    assert s[k + j..k + j + |sep|] == rest[j..j + |sep|];
  }

  /** `split(sep)[1]` is the piece after the first separator: a split has a
      second piece exactly when `s` contains `sep`. */
  lemma {:induction false} SplitSecond(s: string, sep: string)
    requires |sep| > 0
    ensures |Split(s, sep)| >= 2 <==> PieceAfterFirst(s, sep).Some?
    ensures |Split(s, sep)| >= 2 ==> Split(s, sep)[1] == PieceAfterFirst(s, sep).value
  {
    if IndexOf(s, sep).Some? {
      var i := IndexOf(s, sep).value;
      var rest := s[i + |sep|..];
      SplitStep(s, sep);
      SplitFirst(rest, sep);
    }
  }

  /** The first piece of a split: everything before the first separator. */
  lemma SplitFirst(s: string, sep: string)
    requires |sep| > 0
    ensures Split(s, sep)[0] == match IndexOf(s, sep) case None => s case Some(j) => s[..j]
  {
  }

  /** For a public URL `prefix + bucket + '/' + path`, where the bucket name
      has no '/' and neither `prefix` nor the non-empty `path` contains
      `bucket + '/'`, the path recovered is exactly `path`. */
  lemma {:induction false} DeleteFilePathOfUrl(prefix: string, bucket: string, path: string)
    requires '/' !in bucket
    requires path != ""
    requires !Contains(prefix, bucket + "/") && !Contains(path, bucket + "/")
    ensures DeleteFilePath(prefix + bucket + "/" + path, bucket) == Ok(path)
  {
    var sep := bucket + "/";
    var url := prefix + sep + path;
    assert url == prefix + bucket + "/" + path;
    FirstSeparatorAfterPrefix(prefix, bucket, path);
    assert url[..|prefix|] == prefix;
    assert url[|prefix| + |sep|..] == path;
    assert IndexOf(path, sep).None?;
    assert Split(url, sep) == [prefix, path];
  }

  /** The first `bucket + '/'` in such a URL is the one right after `prefix`:
      an earlier one would end either inside `prefix` or on a character of
      the bucket name, which is not '/'. */
  lemma {:induction false} FirstSeparatorAfterPrefix(prefix: string, bucket: string, path: string)
    requires '/' !in bucket
    requires !Contains(prefix, bucket + "/")
    ensures IndexOf(prefix + bucket + "/" + path, bucket + "/") == Some(|prefix|)
  {
    var sep := bucket + "/";
    var url := prefix + sep + path;
    assert url == prefix + bucket + "/" + path;
    var k := |prefix|;
    assert url[k..k + |sep|] == sep;
    forall j | 0 <= j < k ensures !OccursAt(url, sep, j) {
      var end := j + |sep| - 1;
      if end < k {
        assert url[j..j + |sep|] == prefix[j..j + |sep|];
        assert !OccursAt(prefix, sep, j);
      } else {
        assert url[end] == sep[end - k];
        assert sep[end - k] != '/';
        assert url[j..j + |sep|][|sep| - 1] != '/';
      }
    }
    assert Contains(url, sep) by { assert OccursAt(url, sep, k); }
    var v := IndexOf(url, sep).value;
    assert OccursAt(url, sep, v);
    assert v >= k;
    assert OccursAt(url, sep, k);
    assert v <= k;
  }
}
