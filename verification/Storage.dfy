/** Stored files: a blob at the storage provider and a row that says whose it is. */
module Storage {
  import opened Wrappers
  import opened Entities

  /** Every stored file belongs to a user and has its own blob. */
  ghost predicate FileInv(users: map<Id, User>, files: map<Id, StoredFile>, blobs: set<string>) {
    && (forall f | f in files :: files[f].userId in users && files[f].fileKey in blobs)
    && (forall f, f' {:trigger SameKey(files[f], files[f'])} |
          f in files && f' in files && SameKey(files[f], files[f']) :: f == f')
  }

  predicate SameKey(a: StoredFile, b: StoredFile) {
    a.fileKey == b.fileKey
  }

  /** A file id that no row holds and no submission still names. */
  ghost predicate FileIdUnused(db: Db, id: Id) {
    && id !in db.files
    && forall s | s in db.submissions :: db.submissions[s].storedFileId != Some(id)
  }

  // ---------- store a file ----------

  /** Blob first, then the row; the row is refused when its user does not exist, and the blob stays. */
  function StoreNext(db: Db, user: Id, file: Upload): Db
    requires file.Valid?
  {
    var withBlob := db.(blobs := db.blobs + {file.key});
    if user in db.users then withBlob.(files := db.files[file.id := StoredFile(user, file.key, file.url)])
    else withBlob
  }

  function StoreVerdict(db: Db, user: Id, file: Upload): Option<Error> {
    if !file.Valid? then Some(InvalidFile)
    else if user !in db.users then Some(SaveFailed)
    else None
  }

  /** The database after an upload request, accepted or not. */
  function AfterStore(db: Db, user: Id, file: Upload): (r: Db)
    ensures r == db.(files := r.files, blobs := r.blobs)
  {
    if file.Valid? then StoreNext(db, user, file) else db
  }

  // ---------- delete a file ----------

  function DeleteFileVerdict(db: Db, file: Id, user: Id): Option<Error> {
    if file !in db.files then Some(FileNotFound)
    else if db.files[file].userId != user then Some(FileForbidden)
    else None
  }

  /** A payment attempt that names the file loses the reference: ON DELETE SET NULL. */
  function Detached(a: Attempt, file: Id): Attempt {
    if a.proofOfPaymentFileId == Some(file) then a.(proofOfPaymentFileId := None) else a
  }

  function WithoutFile(r: Registration, file: Id): (r': Registration)
    ensures r' == r.(attempts := r'.attempts)
  {
    r.(attempts := seq(|r.attempts|, i requires 0 <= i < |r.attempts| => Detached(r.attempts[i], file)))
  }

  /** The blob goes, then the row, and with the row every reference a payment attempt has to it. */
  function DeleteFileNext(db: Db, file: Id): (r: Db)
    requires file in db.files
    ensures r == db.(files := r.files, blobs := r.blobs, registrations := r.registrations)
  {
    db.(blobs := db.blobs - {db.files[file].fileKey},
        files := db.files - {file},
        registrations := map r | r in db.registrations :: WithoutFile(db.registrations[r], file))
  }

  // ---------- lemmas ----------

  /** Upload and delete keep blobs and rows in step. */
  lemma StoreKeepsFiles(db: Db, user: Id, file: Upload)
    requires FileInv(db.users, db.files, db.blobs)
    requires file.Valid? ==> file.id !in db.files && file.key !in db.blobs
    ensures var db' := AfterStore(db, user, file); FileInv(db'.users, db'.files, db'.blobs)
  {
    if file.Valid? {
      var row := StoredFile(user, file.key, file.url);
      assert forall f | f in db.files :: !SameKey(db.files[f], row) && !SameKey(row, db.files[f]);
    }
  }

  lemma DeleteFileKeepsFiles(db: Db, file: Id)
    requires FileInv(db.users, db.files, db.blobs) && file in db.files
    ensures var db' := DeleteFileNext(db, file); FileInv(db'.users, db'.files, db'.blobs)
  {
    assert forall f | f in db.files && f != file :: !SameKey(db.files[f], db.files[file]);
  }
}
