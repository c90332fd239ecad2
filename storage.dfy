/**
 * The object store: one bucket shared by every tenant, where a key is a
 * plain string and tenants are kept apart only by the `tenant/` prefix of
 * the keys the routes build. Putting a key that exists replaces it;
 * deleting a key that does not exist succeeds and changes nothing.
 */
module ObjectStorage {
  import opened Wrappers

  /** The bytes of an uploaded file and the content type sent with them. */
  datatype StoredObject = StoredObject(body: seq<bv8>, contentType: Option<string>)

  class ObjectStore {
    var objects: map<string, StoredObject>

    constructor (objects: map<string, StoredObject>)
      ensures this.objects == objects
    {
      this.objects := objects;
    }

    /** `upload_fileobj`: on success `key` holds `obj`; on failure nothing changes. */
    method UploadFileObj(key: string, obj: StoredObject, outcome: Outcome) returns (r: Outcome)
      modifies this
      ensures r == outcome
      ensures objects == if outcome.Pass? then old(objects)[key := obj] else old(objects)
    {
      if outcome.Pass? {
        objects := objects[key := obj];
      }
      r := outcome;
    }

    /** `delete_object`: on success `key` is gone; on failure nothing changes. */
    method DeleteObject(key: string, outcome: Outcome) returns (r: Outcome)
      modifies this
      ensures r == outcome
      ensures objects == if outcome.Pass? then old(objects) - {key} else old(objects)
    {
      if outcome.Pass? {
        objects := objects - {key};
      }
      r := outcome;
    }
  }
}
