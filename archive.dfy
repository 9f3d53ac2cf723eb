/** `unpack` and the unpack loop of `download_gsod_yr`: each extracted
    `.op.gz` file of a year is decompressed next to itself, under the name
    `rstrip('.gz')` gives, and the archive is removed. */
module Archive {
  import opened Common

  /** The characters `url.rstrip('.gz')` strips: a set, not a suffix. */
  const GzChars: set<char> := {'.', 'g', 'z'}

  /** The path the decompressed data is written to, when `url` passes the
      `find('op.gz')` guard. */
  function Target(url: string): (r: Option<string>)
    ensures r.None? <==> !Contains(url, "op.gz")
    ensures r.Some? ==> |r.value| <= |url| && r.value == url[..|r.value|]
    ensures r.Some? ==> forall j :: |r.value| <= j < |url| ==> url[j] in GzChars
    ensures r.Some? && |r.value| > 0 ==> r.value[|r.value| - 1] !in GzChars
  {
    if !Contains(url, "op.gz") then None else Some(RStrip(url, GzChars))
  }

  /** The directory after `unpack(url)`, or why it raised. A path without
      `op.gz` is left alone; otherwise the file must exist and decompress,
      its data is written to the target and then the file is removed, so
      that a target equal to the file's own path loses the data. */
  function Unpacked(files: map<string, seq<bv8>>, url: string, gunzip: seq<bv8> -> Option<seq<bv8>>): Result<map<string, seq<bv8>>> {
    match Target(url)
    case None => Ok(files)
    case Some(t) =>
      if url !in files || gunzip(files[url]).None? then Err(Unreadable(url))
      else Ok(files[t := gunzip(files[url]).value] - {url})
  }

  /** The urls unpacked in order; the first failure ends the year. */
  function UnpackEach(files: map<string, seq<bv8>>, urls: seq<string>, gunzip: seq<bv8> -> Option<seq<bv8>>): Result<map<string, seq<bv8>>> {
    if |urls| == 0 then Ok(files)
    else
      match UnpackEach(files, urls[..|urls| - 1], gunzip)
      case Err(e) => Err(e)
      case Ok(f) => Unpacked(f, urls[|urls| - 1], gunzip)
  }

  /** One more url on top of the unpacking of its predecessors. */
  lemma UnpackEachStep(files: map<string, seq<bv8>>, urls: seq<string>, k: nat, gunzip: seq<bv8> -> Option<seq<bv8>>)
    requires k < |urls| && UnpackEach(files, urls[..k], gunzip).Ok?
    ensures UnpackEach(files, urls[..k + 1], gunzip) == Unpacked(UnpackEach(files, urls[..k], gunzip).value, urls[k], gunzip)
  {
    assert urls[..k + 1][..k] == urls[..k];
  }

  /** What `unpack` does to each path: a guarded path is a no-op; otherwise
      it fails exactly when the file is missing or does not decompress, and
      on success the file is gone, the target holds the decompressed data
      unless it is the file itself, and every other path is unchanged. */
  lemma UnpackedSpec(files: map<string, seq<bv8>>, url: string, gunzip: seq<bv8> -> Option<seq<bv8>>, p: string)
    ensures !Contains(url, "op.gz") ==> Unpacked(files, url, gunzip) == Ok(files)
    ensures Contains(url, "op.gz") ==>
      (Unpacked(files, url, gunzip).Err? <==> url !in files || gunzip(files[url]).None?)
    ensures Contains(url, "op.gz") && Unpacked(files, url, gunzip).Ok? ==>
      var f := Unpacked(files, url, gunzip).value;
      var t := Target(url).value;
      url !in f &&
      (t != url ==> t in f && f[t] == gunzip(files[url]).value) &&
      (p != url && p != t ==> (p in f <==> p in files) && (p in files ==> f[p] == files[p]))
  {
  }

  /** For a path that ends in `op.gz`, as NOAA's files do, the stripped
      characters are exactly the `.gz` extension. */
  lemma TargetOfOpFile(url: string)
    requires |url| >= 5 && url[|url| - 5..] == "op.gz"
    ensures Target(url) == Some(url[..|url| - 3])
  {
    assert OccursAt("op.gz", url, |url| - 5);
    var s0 := url;
    var s1 := url[..|url| - 1];
    var s2 := s1[..|s1| - 1];
    var s3 := s2[..|s2| - 1];
    assert url[|url| - 5..][4] == 'z' && url[|url| - 5..][3] == 'g' && url[|url| - 5..][2] == '.';
    assert s0[|s0| - 1] == 'z' && s1[|s1| - 1] == url[|url| - 2] && s2[|s2| - 1] == url[|url| - 3];
    assert url[|url| - 5..][1] == 'p';
    assert s3[|s3| - 1] == url[|url| - 4];
    assert RStrip(s3, GzChars) == s3;
    assert RStrip(s2, GzChars) == s3;
    assert RStrip(s1, GzChars) == s3;
    assert s3 == url[..|url| - 3];
  }

  /** A path that only contains `op.gz` is stripped of the whole trailing run
      of `.`, `g` and `z`: "a.op.gz.gz" becomes "a.op", not "a.op.gz". */
  lemma TargetStripsRun()
    ensures Target("a.op.gz.gz") == Some("a.op")
  {
    assert OccursAt("op.gz", "a.op.gz.gz", 2);
    var s := "a.op.gz.gz";
    assert RStrip(s[..4], GzChars) == "a.op";
    assert RStrip(s[..5], GzChars) == "a.op" by { assert s[..5][..4] == s[..4]; }
    assert RStrip(s[..6], GzChars) == "a.op" by { assert s[..6][..5] == s[..5]; }
    assert RStrip(s[..7], GzChars) == "a.op" by { assert s[..7][..6] == s[..6]; }
    assert RStrip(s[..8], GzChars) == "a.op" by { assert s[..8][..7] == s[..7]; }
    assert RStrip(s[..9], GzChars) == "a.op" by { assert s[..9][..8] == s[..8]; }
    assert RStrip(s, GzChars) == "a.op" by { assert s[..9] == s[..|s| - 1]; }
  }

  /** A guarded path whose last character is not stripped is its own target,
      so the decompressed data is written over it and then removed with it. */
  lemma UnpackLosesOwnTarget(gunzip: seq<bv8> -> Option<seq<bv8>>, data: seq<bv8>)
    requires gunzip(data).Some?
    ensures Target("x.op.gz.bak") == Some("x.op.gz.bak")
    ensures Unpacked(map["x.op.gz.bak" := data], "x.op.gz.bak", gunzip) == Ok(map[])
  {
    assert OccursAt("op.gz", "x.op.gz.bak", 2);
    assert RStrip("x.op.gz.bak", GzChars) == "x.op.gz.bak";
    assert map["x.op.gz.bak" := data]["x.op.gz.bak" := gunzip(data).value] - {"x.op.gz.bak"} == map[];
  }

  /** The files of a year's directory, on local disk. */
  class Directory {
    var files: map<string, seq<bv8>>

    constructor (files: map<string, seq<bv8>>)
      ensures this.files == files
    {
      this.files := files;
    }

    /** `unpack(url)`. */
    method Unpack(url: string, gunzip: seq<bv8> -> Option<seq<bv8>>) returns (r: Option<Error>)
      modifies this
      ensures r.None? <==> Unpacked(old(files), url, gunzip).Ok?
      ensures r.None? ==> files == Unpacked(old(files), url, gunzip).value
      ensures r.Some? ==> files == old(files)
    {
      if !Contains(url, "op.gz") {
        return None;
      }
      if url !in files || gunzip(files[url]).None? {
        return Some(Unreadable(url));
      }
      var data := gunzip(files[url]).value;
      files := files[RStrip(url, GzChars) := data];
      files := files - {url};
      r := None;
    }

    /** The loop of `download_gsod_yr` over the extracted files: each one is
        unpacked, and once more after a failure; a second failure ends the
        loop with the files unpacked so far. */
    method UnpackAll(urls: seq<string>, gunzip: seq<bv8> -> Option<seq<bv8>>) returns (r: Option<Error>)
      modifies this
      ensures r.None? <==> UnpackEach(old(files), urls, gunzip).Ok?
      ensures r.None? ==> files == UnpackEach(old(files), urls, gunzip).value
      ensures r.Some? ==>
        exists k :: 0 <= k < |urls| && UnpackEach(old(files), urls[..k], gunzip) == Ok(files) && Unpacked(files, urls[k], gunzip).Err?
    {
      var i := 0;
      while i < |urls|
        invariant 0 <= i <= |urls|
        invariant UnpackEach(old(files), urls[..i], gunzip) == Ok(files)
      {
        UnpackEachStep(old(files), urls, i, gunzip);
        var e := Unpack(urls[i], gunzip);
        if e.Some? {
          e := Unpack(urls[i], gunzip);
          if e.Some? {
            UnpackEachFails(old(files), urls, i + 1, gunzip);
            return e;
          }
        }
        i := i + 1;
      }
      assert urls[..i] == urls;
      r := None;
    }
  }

  /** A failure on a prefix of the urls is a failure of the whole loop. */
  lemma {:induction false} UnpackEachFails(files: map<string, seq<bv8>>, urls: seq<string>, k: nat, gunzip: seq<bv8> -> Option<seq<bv8>>)
    requires k <= |urls| && UnpackEach(files, urls[..k], gunzip).Err?
    ensures UnpackEach(files, urls, gunzip).Err?
  {
    if k < |urls| {
      assert urls[..|urls| - 1][..k] == urls[..k];
      UnpackEachFails(files, urls[..|urls| - 1], k, gunzip);
    } else {
      assert urls[..k] == urls;
    }
  }
}
