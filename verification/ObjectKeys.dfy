/** Object keys of uploaded images, their public URLs, and the way back. */
module ObjectKeys {
  import opened Wrappers

  // ----- Python's string operations

  /** Where the last dot is, if there is one: `rsplit(".", 1)` cuts there. */
  function LastDot(s: string): (k: Option<nat>)
    ensures k.None? <==> '.' !in s
    ensures k.Some? ==> k.value < |s| && s[k.value] == '.' && '.' !in s[k.value + 1..]
  {
    if s == "" then None
    else
      assert s == s[..|s| - 1] + [s[|s| - 1]];
      if s[|s| - 1] == '.' then Some(|s| - 1)
      else
        var k := LastDot(s[..|s| - 1]);
        assert k.Some? ==> s[k.value + 1..] == s[..|s| - 1][k.value + 1..] + [s[|s| - 1]];
        k
  }

  lemma LastDotIs(s: string, k: nat)
    requires k < |s| && s[k] == '.' && '.' !in s[k + 1..]
    ensures LastDot(s) == Some(k)
  {
    var l := LastDot(s).value;
    forall j | k < j < |s| ensures s[j] != '.' { assert s[j] == s[k + 1..][j - k - 1]; }
    forall j | l < j < |s| ensures s[j] != '.' { assert s[j] == s[l + 1..][j - l - 1]; }
  }

  function BeforeLastDot(s: string): string {
    match LastDot(s)
    case None => s
    case Some(k) => s[..k]
  }

  function AfterLastDot(s: string): string {
    match LastDot(s)
    case None => s
    case Some(k) => s[k + 1..]
  }

  function StripSlashes(s: string): (r: string)
    ensures r <= s && (r == "" || r[|r| - 1] != '/')
    ensures forall i :: |r| <= i < |s| ==> s[i] == '/'
  {
    if s != "" && s[|s| - 1] == '/' then StripSlashes(s[..|s| - 1]) else s
  }

  // ----- Keys

  /** `generate_object_key`, with the random part given. */
  function GenerateKey(prefix: string, filename: string, unique: string): string {
    var ext := if '.' in filename then AfterLastDot(filename) else "webp";
    prefix + "/" + unique + "." + ext
  }

  /** A generated key ends in what follows the file name's last dot, or in "webp" if it has none. */
  lemma GeneratedKey(prefix: string, stem: string, ext: string, unique: string)
    requires '.' !in ext
    ensures GenerateKey(prefix, stem + "." + ext, unique) == prefix + "/" + unique + "." + ext
    ensures '.' !in stem ==> GenerateKey(prefix, stem, unique) == prefix + "/" + unique + "." + "webp"
  {
    var name := stem + "." + ext;
    assert name[|stem|] == '.' && name[|stem| + 1..] == ext;
    LastDotIs(name, |stem|);
  }

  datatype Variant = Thumbnail | Medium | Large

  function VariantName(v: Variant): string {
    match v case Thumbnail => "thumbnail" case Medium => "medium" case Large => "large"
  }

  /** The key one variant is stored under: the generated key with its extension replaced. */
  function StoredKey(prefix: string, v: Variant, filename: string, unique: string): string {
    BeforeLastDot(GenerateKey(prefix + "/" + VariantName(v), filename, unique)) + ".webp"
  }

  /** Whatever the file was called, the key is `prefix/variant/unique.webp`. */
  lemma KeyIgnoresFilename(prefix: string, v: Variant, filename: string, unique: string)
    ensures StoredKey(prefix, v, filename, unique) == prefix + "/" + VariantName(v) + "/" + unique + ".webp"
  {
    var stem := prefix + "/" + VariantName(v) + "/" + unique;
    var ext := if '.' in filename then AfterLastDot(filename) else "webp";
    var key := GenerateKey(prefix + "/" + VariantName(v), filename, unique);
    assert key == stem + "." + ext;
    assert key[|stem|] == '.' && key[|stem| + 1..] == ext;
    LastDotIs(key, |stem|);
    assert key[..|stem|] == stem;
  }

  /** The three keys of an upload, in full. */
  lemma StoredKeys(filename: string, unique: string)
    ensures StoredKey("dishes", Thumbnail, filename, unique) == "dishes/thumbnail/" + unique + ".webp"
    ensures StoredKey("dishes", Medium, filename, unique) == "dishes/medium/" + unique + ".webp"
    ensures StoredKey("dishes", Large, filename, unique) == "dishes/large/" + unique + ".webp"
  {
    hide StoredKey;
    KeyIgnoresFilename("dishes", Thumbnail, filename, unique);
    KeyIgnoresFilename("dishes", Medium, filename, unique);
    KeyIgnoresFilename("dishes", Large, filename, unique);
    assert "dishes" + "/" + "thumbnail" + "/" == "dishes/thumbnail/";
    assert "dishes" + "/" + "medium" + "/" == "dishes/medium/";
    assert "dishes" + "/" + "large" + "/" == "dishes/large/";
  }

  /** Variants of one upload never share a key, even if they drew the same random part. */
  lemma VariantKeysDiffer(prefix: string, v: Variant, w: Variant, filename: string, u1: string, u2: string)
    requires v != w
    ensures StoredKey(prefix, v, filename, u1) != StoredKey(prefix, w, filename, u2)
  {
    KeyIgnoresFilename(prefix, v, filename, u1);
    KeyIgnoresFilename(prefix, w, filename, u2);
    var k1, k2 := StoredKey(prefix, v, filename, u1), StoredKey(prefix, w, filename, u2);
    assert k1[|prefix| + 1] == VariantName(v)[0] && k2[|prefix| + 1] == VariantName(w)[0];
  }

  // ----- URLs

  /** Which settings the public prefix comes from. A configured URL loses its trailing slashes;
      the default Google address is used as it stands. */
  datatype Backend = S3(publicUrl: string) | Gcs(customUrl: Option<string>, bucket: string)

  predicate UsesDefault(b: Backend) { b.Gcs? && (b.customUrl.None? || b.customUrl.value == "") }

  function PublicPrefix(b: Backend): string {
    if UsesDefault(b) then "https://storage.googleapis.com/" + b.bucket
    else StripSlashes(if b.S3? then b.publicUrl else b.customUrl.value)
  }

  function UploadUrl(b: Backend, key: string): string {
    PublicPrefix(b) + "/" + key
  }

  /** The key that `delete_image` deletes; None for a foreign URL. */
  function DeletedKey(b: Backend, url: string): Option<string> {
    var prefix := StripSlashes(PublicPrefix(b));
    if prefix <= url then Some(if |prefix| + 1 <= |url| then url[|prefix| + 1..] else "") else None
  }

  lemma StripSlashesFixed(s: string)
    requires s == "" || s[|s| - 1] != '/'
    ensures StripSlashes(s) == s
  {
  }

  /** Where an object is found: under the configured address, however many slashes that ends in, or under
      the bucket at Google when none is configured. */
  lemma UploadUrls(url: string, bucket: string, key: string)
    ensures UploadUrl(Gcs(None, bucket), key) == "https://storage.googleapis.com/" + bucket + "/" + key
    ensures UploadUrl(Gcs(Some(""), bucket), key) == UploadUrl(Gcs(None, bucket), key)
    ensures url != "" && url[|url| - 1] != '/' ==>
              UploadUrl(S3(url), key) == UploadUrl(Gcs(Some(url), bucket), key) == url + "/" + key
    ensures UploadUrl(S3(url + "/"), key) == UploadUrl(S3(url), key)
    ensures url != "" ==> UploadUrl(Gcs(Some(url + "/"), bucket), key) == UploadUrl(Gcs(Some(url), bucket), key)
  {
    assert (url + "/")[..|url|] == url;
    if url != "" && url[|url| - 1] != '/' { StripSlashesFixed(url); }
  }

  /** What the running service can be configured with: the Google backend refuses to start without a
      bucket, and no bucket has a slash in its name. */
  predicate Configured(b: Backend) {
    b.Gcs? ==> b.bucket != "" && '/' !in b.bucket
  }

  lemma ConfiguredPrefix(b: Backend)
    requires Configured(b)
    ensures StripSlashes(PublicPrefix(b)) == PublicPrefix(b)
  {
    var public := PublicPrefix(b);
    if UsesDefault(b) { assert public[|public| - 1] in b.bucket; }
    StripSlashesFixed(public);
  }

  /** Deleting by the URL that the upload returned deletes exactly the uploaded object. With settings
      left unchecked this would need the default address not to end in a slash. */
  lemma DeleteFindsUpload(b: Backend, key: string)
    ensures Configured(b) ==> DeletedKey(b, UploadUrl(b, key)) == Some(key)
    ensures DeletedKey(b, UploadUrl(b, key)) == Some(key) <==>
              (UsesDefault(b) ==> b.bucket != "" && b.bucket[|b.bucket| - 1] != '/')
  {
    var public := PublicPrefix(b);
    var prefix, url := StripSlashes(public), UploadUrl(b, key);
    if public == "" || public[|public| - 1] != '/' {
      StripSlashesFixed(public);
      assert url[|prefix| + 1..] == key;
    } else {
      assert |prefix| < |public|;
      assert prefix <= url;
      assert |url[|prefix| + 1..]| > |key|;
    }
    if Configured(b) { ConfiguredPrefix(b); }
  }

  /** For every URL: something is deleted exactly when the URL begins with the public prefix, and then
      it is what follows the prefix and one more character, whichever that is; nothing may follow. */
  lemma WhatIsDeleted(b: Backend, url: string, key: string)
    requires Configured(b)
    ensures DeletedKey(b, url) == Some(key) <==>
              (url == PublicPrefix(b) && key == "") || exists c: char :: url == PublicPrefix(b) + [c] + key
  {
    ConfiguredPrefix(b);
    var prefix := PublicPrefix(b);
    if DeletedKey(b, url) == Some(key) && url != prefix {
      assert url == prefix + [url[|prefix|]] + key;
    }
    if c :| url == prefix + [c] + key {
      assert url[..|prefix|] == prefix && url[|prefix| + 1..] == key;
    }
  }

  /** So a deletion is of an uploaded object's own URL exactly when that one character is a slash;
      any other character leaves a foreign URL that deletes all the same. */
  lemma DeletionIsOwn(b: Backend, url: string)
    requires Configured(b) && DeletedKey(b, url).Some?
    ensures url == UploadUrl(b, DeletedKey(b, url).value) <==>
              |PublicPrefix(b)| < |url| && url[|PublicPrefix(b)|] == '/'
    ensures (exists key :: url == UploadUrl(b, key)) <==> url == UploadUrl(b, DeletedKey(b, url).value)
  {
    ConfiguredPrefix(b);
    var prefix := PublicPrefix(b);
    if |prefix| < |url| {
      assert url == prefix + [url[|prefix|]] + url[|prefix| + 1..];
    }
    if key :| url == UploadUrl(b, key) {
      DeleteFindsUpload(b, key);
    }
  }
}
