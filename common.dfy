/** Shared vocabulary of the blog backend model: document ids, optional
    values, and the tests Mongoose and JavaScript apply to request fields. */
module Common {

  /** A MongoDB ObjectId, kept as an opaque string. */
  type Id = string

  datatype Option<+T> = None | Some(value: T)

  /** A value assigned to a Mongoose path whose schema type is `String`:
      plain text, or the `{url, public_id}` object an image upload yields. */
  datatype FieldValue = Text(text: string) | ImageRef(url: string, publicId: string)

  /** What the image host returns for an uploaded file. */
  datatype Upload = Upload(secureUrl: string, publicId: string)

  /** The `{url, public_id}` object the handlers build from an upload
      result, when there is one. Assigned to a String path it is never
      acceptable: it fails the cast, and so the required validator too. */
  function UploadedImage(u: Option<Upload>): (v: Option<FieldValue>)
    ensures v.Some? <==> u.Some?
    ensures v.Some? ==> v.value == ImageRef(u.value.secureUrl, u.value.publicId)
    ensures v.Some? ==> !CastsToString(v) && !RequiredText(v)
  {
    if u.Some? then Some(ImageRef(u.value.secureUrl, u.value.publicId)) else None
  }

  /** Mongoose's `required` validator on a String path: present and non-empty. */
  predicate RequiredString(v: Option<string>) {
    v.Some? && v.value != ""
  }

  /** Mongoose's `required` validator together with the cast to String:
      text that is non-empty. A plain object fails the cast. */
  predicate RequiredText(v: Option<FieldValue>) {
    v.Some? && v.value.Text? && v.value.text != ""
  }

  /** The cast to String on an optional path: absence and text pass, a plain
      object is a CastError. */
  predicate CastsToString(v: Option<FieldValue>) {
    v.None? || v.value.Text?
  }

  /** JavaScript `a || b` where `a` is a request string (the empty string is
      falsy) and `b` the stored value. */
  function OrElse(a: string, b: Option<string>): Option<string> {
    if a != "" then Some(a) else b
  }
}
