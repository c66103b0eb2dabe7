/** Storing and deleting a file: the blob first, then the row. */
module StorageUseCases {
  import opened Wrappers
  import opened Entities
  import opened Storage
  import D = Database

  method UploadFile(db: D.Database, user: Id, file: Upload) returns (refused: Option<Error>)
    modifies db`blobs, db`files
    ensures refused == StoreVerdict(old(db.View()), user, file)
    ensures db.View() == AfterStore(old(db.View()), user, file)
  {
    if !file.Valid? {
      return Some(InvalidFile);
    }
    db.blobs := db.blobs + {file.key};
    if user !in db.users {
      return Some(SaveFailed);
    }
    db.files := db.files[file.id := StoredFile(user, file.key, file.url)];
    refused := None;
  }

  method DeleteStoredFile(db: D.Database, file: Id, user: Id) returns (refused: Option<Error>)
    modifies db`blobs, db`files, db`registrations
    ensures refused == DeleteFileVerdict(old(db.View()), file, user)
    ensures db.View() == if refused.Some? then old(db.View()) else DeleteFileNext(old(db.View()), file)
  {
    if file !in db.files {
      return Some(FileNotFound);
    }
    var row := db.files[file];
    if row.userId != user {
      return Some(FileForbidden);
    }
    db.blobs := db.blobs - {row.fileKey};
    db.DeleteFileRow(file);
    refused := None;
  }
}
