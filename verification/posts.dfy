/** The blog post entity: seven nullable columns, their accessor pairs
    and the `toString` rendering. */
module Posts {
  import opened Results
  import opened Strs

  /** One row of the `blog` table. Every column may be null; `postId`
      is filled in by the identity column when the row is inserted. */
  datatype Blog = Blog(
    postId: Option<int>,
    postName: Option<string>,
    publishDate: Option<string>,
    text: Option<string>,
    clientName: Option<string>,
    vkLink: Option<string>,
    link: Option<string>)

  /** The six text columns, each with a getter and a setter. */
  datatype TextField = PostName | PublishDate | Text | ClientName | VkLink | Link

  /** `new Blog()`: every column null. */
  function NewBlog(): (b: Blog)
    ensures b.postId == None
    ensures forall f :: GetField(b, f) == None
  {
    Blog(None, None, None, None, None, None, None)
  }

  /** The getter of a text column. */
  function GetField(b: Blog, f: TextField): Option<string> {
    match f
    case PostName => b.postName
    case PublishDate => b.publishDate
    case Text => b.text
    case ClientName => b.clientName
    case VkLink => b.vkLink
    case Link => b.link
  }

  /** The setter of a text column: the getter then returns `v`, and no
      other column moves. */
  function SetField(b: Blog, f: TextField, v: Option<string>): (r: Blog)
    ensures GetField(r, f) == v
    ensures forall g :: g != f ==> GetField(r, g) == GetField(b, g)
    ensures r.postId == b.postId
  {
    match f
    case PostName => b.(postName := v)
    case PublishDate => b.(publishDate := v)
    case Text => b.(text := v)
    case ClientName => b.(clientName := v)
    case VkLink => b.(vkLink := v)
    case Link => b.(link := v)
  }

  /** `setPost_id`: only the id moves. */
  function SetPostId(b: Blog, id: Option<int>): (r: Blog)
    ensures r.postId == id
    ensures forall g :: GetField(r, g) == GetField(b, g)
  {
    b.(postId := id)
  }

  /** The id with which the table stores and finds a post. */
  function IdOf(b: Blog): Option<int> {
    b.postId
  }

  /** What the identity column does to a post on insert. */
  function WithId(b: Blog, id: int): (r: Blog)
    ensures IdOf(r) == Some(id)
  {
    SetPostId(b, Some(id))
  }

  const ToStringHead := "post [post_id="

  /** `toString`: the id, name, date, text and client name, in that
      order, each under its column name; a null renders as `null`. */
  function ToString(b: Blog): (r: string)
    ensures ToStringHead + JavaLongText(b.postId) + ", post_name=" <= r
    ensures |r| > 0 && r[|r| - 1] == ']'
  {
    ToStringHead + JavaLongText(b.postId) + ", post_name=" + JavaText(b.postName)
      + ", publish_date=" + JavaText(b.publishDate) + ", text=" + JavaText(b.text)
      + ", client_name=" + JavaText(b.clientName) + "]"
  }

  /** The two link columns do not take part in the rendering. */
  lemma ToStringIgnoresLinks(b: Blog, vkLink: Option<string>, link: Option<string>)
    ensures ToString(b.(vkLink := vkLink, link := link)) == ToString(b)
  {
  }

  /** Two posts that render alike have the same id: the id text is
      comma-free and is the first thing after the head. */
  lemma ToStringDeterminesId(a: Blog, b: Blog)
    requires ToString(a) == ToString(b)
    ensures a.postId == b.postId
  {
    var x, y := JavaLongText(a.postId), JavaLongText(b.postId);
    FieldBeforeComma(ToStringHead, x, ", post_name=", ToString(a));
    FieldBeforeComma(ToStringHead, y, ", post_name=", ToString(b));
    CommaFreeFieldsAgree(ToStringHead, x, y, ToString(a));
    JavaLongTextInjective(a.postId, b.postId);
  }

  /** A prefix `h + x + tail` with a tail starting with a comma puts a
      comma right after `x`. */
  lemma FieldBeforeComma(h: string, x: string, tail: string, r: string)
    requires tail != [] && tail[0] == ','
    requires h + x + tail <= r
    ensures h + x + [','] <= r
  {
    var p := h + x + tail;
    assert (h + x + [','])[..] == p[..|h + x| + 1];
  }

  lemma JavaLongTextInjective(p: Option<int>, q: Option<int>)
    requires JavaLongText(p) == JavaLongText(q)
    ensures p == q
  {
    match (p, q)
    case (Some(m), Some(n)) =>
      DecimalRoundTrip(m);
      DecimalRoundTrip(n);
    case (Some(m), None) =>
      NumeralIsNotNull(m);
    case (None, Some(n)) =>
      NumeralIsNotNull(n);
    case (None, None) =>
  }

  lemma NumeralIsNotNull(n: int)
    ensures DecimalString(n) != "null"
  {
    var r := DecimalString(n);
    if n >= 0 {
      assert IsDigit(Digits(n)[0]);
    }
    assert r[0] != "null"[0];
  }
}
