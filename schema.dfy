/** The database entities the roast pipeline reads (server/database/schema.ts).
    Nullable columns are Option values. */
module Schema {
  import opened Wrappers

  /** The task_status enumeration. The column itself is nullable. */
  datatype TaskStatus = Pending | Completed

  /** The columns of a user row that the roast pipeline selects. The
      roast_level column holds one of the roast_level enumeration values or
      null; it reaches the persona lookup as a string. */
  datatype User = User(
    id: string,
    name: string,
    email: string,
    jobTitle: Option<string>,
    bio: Option<string>,
    roastLevel: Option<string>)
}
