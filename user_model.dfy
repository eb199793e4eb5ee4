/** The User schema of backend/src/api/v1/models/user.model.ts. */
module UserModel {
  import opened Common

  const DefaultRole: string := "user"
  const Roles: set<string> := {"user", "admin"}

  /** A stored user. The schema defines no methods and no password hashing
      hook; `picture` holds whatever was assigned to its String path. */
  datatype User = User(
    name: Option<string>,
    email: Option<string>,
    password: Option<string>,
    role: string,
    picture: Option<FieldValue>,
    bio: Option<string>)

  /** The schema's validators: name and email are required Strings, role is
      required and one of the enum values, picture must cast to String. */
  predicate Valid(u: User) {
    && RequiredString(u.name)
    && RequiredString(u.email)
    && u.role in Roles
    && CastsToString(u.picture)
  }

  /** The document `User.create({name, email, password})` builds. */
  function New(name: Option<string>, email: Option<string>, password: Option<string>): (u: User)
    ensures u.role == DefaultRole && u.picture.None? && u.bio.None?
    ensures u.name == name && u.email == email && u.password == password
    ensures Valid(u) <==> RequiredString(name) && RequiredString(email)
  {
    User(name, email, password, DefaultRole, None, None)
  }

  /** Nothing in the schema makes email unique: two different valid users
      may share one. */
  lemma DuplicateEmailsAdmitted()
    ensures exists a: User, b: User :: Valid(a) && Valid(b) && a != b && a.email == b.email
  {
    var a := New(Some("a"), Some("shared@mail"), None);
    var b := New(Some("b"), Some("shared@mail"), None);
    assert Valid(a) && Valid(b) && a != b && a.email == b.email;
  }

  /** A picture assigned as an uploaded `{url, public_id}` object fails the
      String cast, so a user holding one cannot be saved. */
  lemma PictureObjectRejected(u: User, url: string, publicId: string)
    ensures !Valid(u.(picture := Some(ImageRef(url, publicId))))
  {
  }
}
