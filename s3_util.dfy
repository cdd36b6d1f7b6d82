/** S3Util: object keys, object URLs, and the key deleteFile extracts from a
    URL. The S3 client itself is not modelled: a put or a delete the service
    issues is recorded as an event in the database's history. */
module S3Util {
  import opened Wrappers
  import opened JavaStrings
  import opened Domain
  import opened UrlEncoding
  import opened Store

  /** A multipart upload as the service sees it: whether it is empty, and its
      original file name, which may be null. The bytes are not modelled. */
  datatype MultipartFile = MultipartFile(isEmpty: bool, originalFilename: Option<string>)

  /** The host and path start of every URL generateFileUrl writes, after the
      bucket name. */
  const Endpoint: string := ".s3.ap-northeast-2.amazonaws.com/"

  /** What Java's string concatenation prints for a possibly null name. */
  function NameText(name: Option<string>): string {
    if name.Some? then name.value else "null"
  }

  /** The object key uploadFile builds: dirName + "/" + uuid + "_" + name. */
  function ObjectKey(dirName: string, uuid: string, originalFilename: Option<string>): (key: string)
    ensures StartsWith(key, dirName + "/")
    ensures EndsWith(key, "_" + NameText(originalFilename))
    ensures |key| == |dirName| + |uuid| + |NameText(originalFilename)| + 2
  {
    var key := dirName + "/" + uuid + "_" + NameText(originalFilename);
    assert key[..|dirName| + 1] == dirName + "/";
    assert key[|key| - |NameText(originalFilename)| - 1..] == "_" + NameText(originalFilename);
    key
  }

  function UrlPrefix(bucket: string): string {
    "https://" + bucket + Endpoint
  }

  /** generateFileUrl: the virtual-hosted URL of an object, with the key
      URL-encoded. */
  function FileUrl(bucket: string, key: string): (url: string)
    ensures StartsWith(url, UrlPrefix(bucket))
  {
    var url := UrlPrefix(bucket) + Encode(key);
    assert url[..|UrlPrefix(bucket)|] == UrlPrefix(bucket);
    url
  }

  // ------------------------------------------------- deleteFile, as written

  /** The marker deleteFile looks for: "amazonaws.com/" + bucket + "/". */
  function BucketDomain(bucket: string): string {
    "amazonaws.com/" + bucket + "/"
  }

  /** The key deleteFile as written would delete, or None where it returns
      without deleting: a null or empty URL, or one without the marker. The
      key is everything after the marker's first occurrence. */
  function DeleteTargetAsWritten(bucket: string, fileUrl: Option<string>): (key: Option<string>)
    ensures key.Some? <==> fileUrl.Some? && fileUrl.value != [] && IndexOf(fileUrl.value, BucketDomain(bucket)) != -1
    ensures key.Some? ==> key.value == fileUrl.value[IndexOf(fileUrl.value, BucketDomain(bucket)) + |BucketDomain(bucket)|..]
    ensures key.Some? ==> fileUrl.Some? && EndsWith(fileUrl.value, BucketDomain(bucket) + key.value)
  {
    if fileUrl.None? || fileUrl.value == [] then None
    else
      var url := fileUrl.value;
      var index := IndexOf(url, BucketDomain(bucket));
      if index == -1 then None
      else
        var key := url[index + |BucketDomain(bucket)|..];
        assert url[|url| - |BucketDomain(bucket) + key|..] == BucketDomain(bucket) + key;
        Some(key)
  }

  /** A URL generateFileUrl wrote never holds the marker, so deleteFile as
      written never deletes an object uploadFile stored (bucket names hold
      no '/'). */
  lemma GeneratedUrlNeverMatched(bucket: string, key: string)
    requires '/' !in bucket
    ensures DeleteTargetAsWritten(bucket, Some(FileUrl(bucket, key))) == None
  {
    var url := FileUrl(bucket, key);
    var marker := BucketDomain(bucket);
    UrlSlashes(bucket, key);
    forall j | 0 <= j <= |url|
      ensures !OccursAt(url, marker, j)
    {
      if j + |marker| <= |url| {
        if url[j + 13] == '/' {
          assert url[j..j + |marker|][14 + |bucket|] != marker[14 + |bucket|];
        } else {
          assert url[j..j + |marker|][13] != marker[13];
        }
      }
    }
  }

  /** Past "https://", a generated URL has exactly one '/': the one that ends
      the host. */
  lemma UrlSlashes(bucket: string, key: string)
    requires '/' !in bucket
    ensures var url := FileUrl(bucket, key);
            forall i :: 8 <= i < |url| && i != |UrlPrefix(bucket)| - 1 ==> url[i] != '/'
  {
    var url := FileUrl(bucket, key);
    var p := UrlPrefix(bucket);
    var e := Encode(key);
    assert url == p + e;
    EncodeHasNoSlash(key);
    PrefixSlashes(bucket);
    forall i | 8 <= i < |url| && i != |p| - 1
      ensures url[i] != '/'
    {
      if i < |p| {
        assert url[i] == p[i];
      } else {
        assert url[i] == e[i - |p|];
      }
    }
  }

  /** Past "https://", the URL prefix has one '/', its last character. */
  lemma PrefixSlashes(bucket: string)
    requires '/' !in bucket
    ensures var p := UrlPrefix(bucket);
            forall i :: 8 <= i < |p| - 1 ==> p[i] != '/'
  {
    var p := UrlPrefix(bucket);
    assert forall j :: 0 <= j < |Endpoint| - 1 ==> Endpoint[j] != '/';
    forall i | 8 <= i < |p| - 1
      ensures p[i] != '/'
    {
      if i < 8 + |bucket| {
        assert p[i] == bucket[i - 8];
      } else {
        assert p[i] == Endpoint[i - 8 - |bucket|];
      }
    }
  }

  // --------------------------------------------------- deleteFile, corrected

  /** The key of an object this bucket's URLs name: the URL must start with
      the prefix generateFileUrl writes, and the rest must decode. */
  function DeleteTarget(bucket: string, fileUrl: Option<string>): (key: Option<string>)
    ensures key.Some? ==> fileUrl.Some? && StartsWith(fileUrl.value, UrlPrefix(bucket))
  {
    if fileUrl.None? || fileUrl.value == [] then None
    else if StartsWith(fileUrl.value, UrlPrefix(bucket)) then Decode(fileUrl.value[|UrlPrefix(bucket)|..])
    else None
  }

  /** The corrected extraction gives back the key of every URL
      generateFileUrl writes. */
  lemma DeleteTargetOfFileUrl(bucket: string, key: string)
    ensures DeleteTarget(bucket, Some(FileUrl(bucket, key))) == Some(key)
  {
    var url := FileUrl(bucket, key);
    assert url[|UrlPrefix(bucket)|..] == Encode(key);
    DecodeEncode(key);
  }

  // ------------------------------------------------------------ the S3 calls

  /** uploadFile. FILE_EMPTY for a null or empty file, before any upload;
      FILE_UPLOAD_FAILED when reading the file fails (`ioFails`); otherwise
      the object is put under its key and its URL returned. */
  method UploadFile(db: Database, file: Option<MultipartFile>, dirName: string, uuid: string,
                    bucket: string, ioFails: bool)
    returns (r: Result<string, ErrorCode>)
    requires db.Valid()
    modifies db
    ensures db.Valid()
    ensures file.None? || file.value.isEmpty ==> r == Failure(FileEmpty)
    ensures file.Some? && !file.value.isEmpty && ioFails ==> r == Failure(FileUploadFailed)
    ensures r.Failure? ==> db.history == old(db.history)
    ensures r.Success? <==> file.Some? && !file.value.isEmpty && !ioFails
    ensures r.Success? ==>
              var key := ObjectKey(dirName, uuid, file.value.originalFilename);
              r.value == FileUrl(bucket, key) && db.history == old(db.history) + [FileUploaded(key)]
    ensures db.users == old(db.users) && db.records == old(db.records)
    ensures db.prescriptions == old(db.prescriptions) && db.weatherLogs == old(db.weatherLogs)
  {
    if file.None? || file.value.isEmpty {
      return Failure(FileEmpty);
    }
    var uniqueFileName := ObjectKey(dirName, uuid, file.value.originalFilename);
    if ioFails {
      return Failure(FileUploadFailed);
    }
    db.LogFileEvent(FileUploaded(uniqueFileName));
    return Success(FileUrl(bucket, uniqueFileName));
  }

  /** The delete requests deleteFile issues for a URL: one for the key the
      marker search finds, none otherwise. */
  function DeleteEvents(bucket: string, fileUrl: Option<string>): (events: seq<Event>)
    ensures events == [] <==> DeleteTargetAsWritten(bucket, fileUrl).None?
    ensures events != [] ==> events == [FileDeleted(DeleteTargetAsWritten(bucket, fileUrl).value)]
  {
    var target := DeleteTargetAsWritten(bucket, fileUrl);
    if target.Some? then [FileDeleted(target.value)] else []
  }

  /** deleteFile never issues a request for a URL uploadFile returned: the
      object a user's profile image names stays in the bucket. */
  lemma GeneratedUrlNotDeleted(bucket: string, key: string)
    requires '/' !in bucket
    ensures DeleteEvents(bucket, Some(FileUrl(bucket, key))) == []
  {
    GeneratedUrlNeverMatched(bucket, key);
  }

  /** deleteFile as written: a delete request is issued exactly when the
      marker search finds a key; it never fails. */
  method DeleteFile(db: Database, bucket: string, fileUrl: Option<string>)
    requires db.Valid()
    modifies db
    ensures db.Valid()
    ensures db.history == old(db.history) + DeleteEvents(bucket, fileUrl)
    ensures db.users == old(db.users) && db.records == old(db.records)
    ensures db.prescriptions == old(db.prescriptions) && db.weatherLogs == old(db.weatherLogs)
  {
    if fileUrl.None? || fileUrl.value == [] {
      return;
    }
    var target := DeleteTargetAsWritten(bucket, fileUrl);
    if target.None? {
      return;
    }
    db.LogFileEvent(FileDeleted(target.value));
  }
}
