/**
 Where an artifact is stored, how that place is printed as a location, and how
 restore finds the place again from the location alone.
 */
module Addressing {
  import opened Wrappers
  import opened Seqs
  import opened Strings
  import opened Paths
  import opened Cluster

  const ARTIFACT_FILE := "backup.tar.gz"
  const S3_TYPE := "s3"
  const NFS_TYPE := "nfs"

  datatype S3Spec = S3Spec(bucket: string, prefix: string)

  datatype NfsSpec = NfsSpec(server: string, path: string)

  datatype StorageLocation = StorageLocation(kind: string, s3: Option<S3Spec>, nfs: Option<NfsSpec>)

  /** What an artifact's address is made of. */
  datatype Identity = Identity(clusterId: string, kind: string, namespace: string, name: string, timestamp: string)

  function NamespaceSegment(ns: string): string { if ns == "" then "cluster" else ns }

  function AddressParts(id: Identity): seq<string> {
    [id.clusterId, ToLower(id.kind), NamespaceSegment(id.namespace), id.name, id.timestamp]
  }

  function RelativeBase(id: Identity): string { JoinPath(AddressParts(id)) }

  function MountPath(configured: string): string { if configured == "" then "/data" else configured }

  function TrimSlashesRight(s: string): string {
    if s != "" && s[|s| - 1] == '/' then TrimSlashesRight(s[..|s| - 1]) else s
  }

  function TrimSlashesLeft(s: string): string {
    if s != "" && s[0] == '/' then TrimSlashesLeft(s[1..]) else s
  }

  function TrimSlashes(s: string): string { TrimSlashesRight(TrimSlashesLeft(s)) }

  /** The texts before and after the first slash. */
  function Cut(s: string): Option<(string, string)> {
    if s == "" then None
    else if s[0] == '/' then Some(("", s[1..]))
    else
      match Cut(s[1..])
      case None => None
      case Some((before, after)) => Some(([s[0]] + before, after))
  }

  // ---- Printing and reading locations ----

  const S3_SCHEME := "s3://"
  const NFS_SCHEME := "nfs://"

  function S3Key(prefix: string, rel: string): string { JoinPath([TrimSlashes(prefix), rel, ARTIFACT_FILE]) }

  function S3Location(bucket: string, key: string): string { S3_SCHEME + bucket + "/" + key }

  function ParseS3Location(location: string): Option<(string, string)> {
    Cut(TrimPrefix(location, S3_SCHEME))
  }

  /** The file the backup worker writes under its mount. */
  function NfsFile(mount: string, rel: string): string { JoinPath([JoinPath([mount, rel]), ARTIFACT_FILE]) }

  function ExportedFile(share: string, rel: string): string { JoinPath([share, rel, ARTIFACT_FILE]) }

  function NfsLocation(server: string, share: string, rel: string): string {
    NFS_SCHEME + server + ExportedFile(share, rel)
  }

  function LocationOf(storage: StorageLocation, id: Identity): Option<string> {
    if storage.kind == S3_TYPE && storage.s3.Some? then
      Some(S3Location(storage.s3.value.bucket, S3Key(storage.s3.value.prefix, RelativeBase(id))))
    else if storage.kind == NFS_TYPE && storage.nfs.Some? then
      Some(NfsLocation(storage.nfs.value.server, storage.nfs.value.path, RelativeBase(id)))
    else None
  }

  /** The path below the mount that a full path on the server means. */
  function BelowExport(share: string, full: string): string {
    TrimPrefix(TrimPrefix(full, TrimSlashesRight(share)), "/")
  }

  /** The file the restore worker opens under its mount. */
  function NfsSource(mount: string, share: string, location: string): Option<string> {
    match Cut(TrimPrefix(location, NFS_SCHEME))
    case None => None
    case Some((server, path)) => Some(JoinPath([mount, BelowExport(share, "/" + path)]))
  }

  // ---- Storing and loading ----

  datatype CopyFault = Smooth | CannotOpen | CannotCreate | Short(kept: string) | CannotSync

  datatype StorageError = MissingConfiguration | MissingSecret | Unsupported | Malformed | Failed

  /** What comes of copying a file: creating the destination empties it first. */
  function Copied(files: map<string, string>, src: string, dst: string): map<string, string>
    requires src in files
  {
    files[dst := if src == dst then "" else files[src]]
  }

  class Storage {
    var files: map<string, string>
    var objects: map<(string, string), string>

    constructor (files: map<string, string>)
      ensures this.files == files && objects == map[]
    {
      this.files := files;
      objects := map[];
    }

    method CopyFile(src: string, dst: string, fault: CopyFault) returns (ok: bool)
      modifies this`files
      ensures ok <==> fault == Smooth && src in old(files)
      ensures ok ==> files == Copied(old(files), src, dst)
      ensures !ok ==> files - {dst} == old(files) - {dst}
    {
      if fault.CannotOpen? || src !in files { return false; }
      if fault.CannotCreate? { return false; }
      files := files[dst := ""];
      if fault.Short? {
        files := files[dst := fault.kept];
        return false;
      }
      files := files[dst := files[src]];
      return fault == Smooth;
    }

    method StoreToNfs(storage: StorageLocation, mount: string, relativeBase: string, artifactPath: string,
                      directoryMade: bool, fault: CopyFault)
      returns (r: Result<string, StorageError>)
      modifies this`files
      ensures r.Success? <==> storage.nfs.Some? && directoryMade && fault == Smooth && artifactPath in old(files)
      ensures r.Success? ==>
                && r.value == ExportedFile(storage.nfs.value.path, relativeBase)
                && files == Copied(old(files), artifactPath, NfsFile(MountPath(mount), relativeBase))
      ensures r.Failure? ==>
                var file := NfsFile(MountPath(mount), relativeBase);
                files - {file} == old(files) - {file}
    {
      if storage.nfs.None? { return Failure(MissingConfiguration); }
      var destDir := JoinPath([MountPath(mount), relativeBase]);
      if !directoryMade { return Failure(Failed); }
      var copied := CopyFile(artifactPath, JoinPath([destDir, ARTIFACT_FILE]), fault);
      if !copied { return Failure(Failed); }
      return Success(JoinPath([storage.nfs.value.path, relativeBase, ARTIFACT_FILE]));
    }

    method LoadFromNfs(storage: StorageLocation, mount: string, location: string, dest: string, fault: CopyFault)
      returns (r: Option<StorageError>)
      modifies this`files
      ensures storage.nfs.None? ==> r == Some(MissingConfiguration)
      ensures storage.nfs.Some? ==>
                var source := NfsSource(MountPath(mount), storage.nfs.value.path, location);
                && (r == Some(Malformed) <==> source.None?)
                && (r.None? <==> source.Some? && fault == Smooth && source.value in old(files))
                && (r.None? ==> files == Copied(old(files), source.value, dest))
      ensures r.Some? ==> files - {dest} == old(files) - {dest}
    {
      if storage.nfs.None? { return Some(MissingConfiguration); }
      var parts := Cut(TrimPrefix(location, NFS_SCHEME));
      if parts.None? { return Some(Malformed); }
      var fullPath := "/" + parts.value.1;
      var basePath := TrimSlashesRight(storage.nfs.value.path);
      var relPath := TrimPrefix(fullPath, basePath);
      relPath := TrimPrefix(relPath, "/");
      var copied := CopyFile(JoinPath([MountPath(mount), relPath]), dest, fault);
      return if copied then None else Some(Failed);
    }

    /** Success means the artifact's bytes are at the address its location names. */
    method StoreArtifact(storage: StorageLocation, mount: string, id: Identity, artifactPath: string,
                         secretRead: bool, upload: Fault, directoryMade: bool, fault: CopyFault)
      returns (r: Result<string, StorageError>)
      modifies this
      ensures r.Success? ==> LocationOf(storage, id) == Some(r.value) && artifactPath in old(files)
      ensures r.Success? && storage.kind == S3_TYPE ==>
                && files == old(files)
                && var key := S3Key(storage.s3.value.prefix, RelativeBase(id));
                      objects == old(objects)[(storage.s3.value.bucket, key)
                                           := old(files)[artifactPath]]
      ensures r.Success? && storage.kind == NFS_TYPE ==>
                && objects == old(objects)
                && files == Copied(old(files), artifactPath, NfsFile(MountPath(mount), RelativeBase(id)))
      ensures r.Failure? && storage.kind != NFS_TYPE ==>
                && files == old(files)
                && (objects != old(objects) ==>
                      && storage.kind == S3_TYPE && storage.s3.Some? && artifactPath in files
                      && var key := S3Key(storage.s3.value.prefix, RelativeBase(id));
                      objects == old(objects)[(storage.s3.value.bucket, key)
                                                 := files[artifactPath]])
      ensures r.Failure? && storage.kind == NFS_TYPE ==>
                var file := NfsFile(MountPath(mount), RelativeBase(id));
                objects == old(objects) && files - {file} == old(files) - {file}
      ensures artifactPath in old(files) && secretRead && upload == NoFault && directoryMade && fault == Smooth ==>
                (r.Success? <==> LocationOf(storage, id).Some?)
    {
      var relativeBase := RelativeBase(id);
      if storage.kind == S3_TYPE {
        if storage.s3.None? { return Failure(MissingConfiguration); }
        if !secretRead { return Failure(MissingSecret); }
        var bucket := storage.s3.value.bucket;
        var key := JoinPath([TrimSlashes(storage.s3.value.prefix), relativeBase, ARTIFACT_FILE]);
        if artifactPath !in files || upload == Refused { return Failure(Failed); }
        objects := objects[(bucket, key) := files[artifactPath]];
        if upload == ReplyLost { return Failure(Failed); }
        return Success(S3_SCHEME + bucket + "/" + key);
      } else if storage.kind == NFS_TYPE {
        var nfsPath := StoreToNfs(storage, mount, relativeBase, artifactPath, directoryMade, fault);
        if nfsPath.Failure? { return Failure(nfsPath.error); }
        return Success(NFS_SCHEME + storage.nfs.value.server + nfsPath.value);
      } else {
        return Failure(Unsupported);
      }
    }

    /** The bucket comes from the location, not from the storage configuration. */
    method LoadArtifact(storage: StorageLocation, mount: string, location: string, dest: string,
                        secretRead: bool, download: bool, fault: CopyFault)
      returns (r: Option<StorageError>)
      modifies this`files
      ensures r.None? && storage.kind == S3_TYPE ==>
                && ParseS3Location(location).Some? && ParseS3Location(location).value in objects
                && files == old(files)[dest := objects[ParseS3Location(location).value]]
      ensures r.None? && storage.kind == NFS_TYPE ==>
                && storage.nfs.Some?
                && var source := NfsSource(MountPath(mount), storage.nfs.value.path, location);
                && source.Some? && source.value in old(files)
                && files == Copied(old(files), source.value, dest)
      ensures storage.kind == S3_TYPE ==>
                (r.None? <==>
                 && storage.s3.Some? && secretRead && download
                 && ParseS3Location(location).Some? && ParseS3Location(location).value in old(objects))
      ensures storage.kind == NFS_TYPE ==>
                (r.None? <==>
                 && storage.nfs.Some? && fault == Smooth
                 && NfsSource(MountPath(mount), storage.nfs.value.path, location).Some?
                 && NfsSource(MountPath(mount), storage.nfs.value.path, location).value in old(files))
      ensures storage.kind != S3_TYPE && storage.kind != NFS_TYPE ==> r == Some(Unsupported)
      ensures r.Some? ==> files - {dest} == old(files) - {dest}
    {
      if storage.kind == S3_TYPE {
        if storage.s3.None? { return Some(MissingConfiguration); }
        if !secretRead { return Some(MissingSecret); }
        var address := ParseS3Location(location);
        if address.None? { return Some(Malformed); }
        if address.value !in objects || !download { return Some(Failed); }
        files := files[dest := objects[address.value]];
        return None;
      } else if storage.kind == NFS_TYPE {
        r := LoadFromNfs(storage, mount, location, dest, fault);
      } else {
        return Some(Unsupported);
      }
    }
  }

  // ---- Reading locations back ----

  lemma {:induction false} CutAtFirst(a: string, b: string)
    requires !Contains(a, '/')
    ensures Cut(a + "/" + b) == Some((a, b))
    decreases |a|
  {
    var s := a + "/" + b;
    if a == "" {
      assert s[1..] == b;
    } else {
      assert a[0] != '/';
      AppendHead(a, "/");
      AppendHead(a + "/", b);
      assert !Contains(a[1..], '/') by { SplitFirst(a); ContainsConcat([a[0]], a[1..], '/'); }
      CutAtFirst(a[1..], b);
      SplitFirst(a);
    }
  }

  lemma {:induction false} CutIsFree(s: string)
    ensures Cut(s).Some? ==> !Contains(Cut(s).value.0, '/')
    ensures Cut(s).Some? <==> Contains(s, '/')
    decreases |s|
  {
    if s != "" {
      SplitFirst(s);
      ContainsConcat([s[0]], s[1..], '/');
      if s[0] == '/' {
        assert Contains([s[0]], '/') by { assert [s[0]][0] == '/'; }
      } else {
        CutIsFree(s[1..]);
        if Cut(s).Some? { ContainsConcat([s[0]], Cut(s[1..]).value.0, '/'); }
      }
    }
  }

  lemma SchemeComesOff(scheme: string, rest: string)
    ensures TrimPrefix(scheme + rest, scheme) == rest
  {
  }

  /** An S3 location parses back to its bucket and key exactly when the bucket has no slash. */
  lemma S3RoundTrip(bucket: string, key: string)
    ensures ParseS3Location(S3Location(bucket, key)) == Some((bucket, key)) <==> !Contains(bucket, '/')
  {
    ConcatAssociates(S3_SCHEME, bucket, "/");
    ConcatAssociates(S3_SCHEME, bucket + "/", key);
    SchemeComesOff(S3_SCHEME, bucket + "/" + key);
    if !Contains(bucket, '/') {
      CutAtFirst(bucket, key);
    } else {
      CutIsFree(bucket + "/" + key);
    }
  }
}
