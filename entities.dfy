/** The two Doctrine entities. Both are objects whose setters update their
    fields in place; every setter returns the object it was called on, as
    the fluent `static` return type does. A property that is only ever
    assigned once (the generated `id`) is a `const` fixed at construction. */
module Entities {
  import opened Php
  import opened Strings
  import opened Collections

  /** A `\DateTimeImmutable`: a point in time whose calendar form is left
      abstract. */
  datatype Timestamp = Timestamp(instant: int)

  const USER_EMAIL_EMPTY: string := "User email cannot be empty."

  /** The engine's Error for `getAuthor()` on an article whose typed
      `$author` property was never assigned. */
  const AUTHOR_UNSET: string := "Typed property App\\Entity\\Article::$author must not be accessed before initialization"

  class User {
    const id: int
    var email: string
    var role: string
    var password: string
    var name: string
    var articles: seq<Article>

    /** What the constructor and `setEmail` guarantee: the email is never
        blank. */
    ghost predicate Valid()
      reads this
    {
      !IsBlank(email)
    }

    /** `new User($name, $email)` once the blank-email guard has passed;
        see `New` for the guard. `role` and `password` are not assigned by
        the constructor and start out empty here. */
    constructor (id: int, name: string, email: string)
      requires !IsBlank(email)
      ensures Valid()
      ensures this.id == id && this.name == name && this.email == email
      ensures role == "" && password == "" && articles == []
    {
      this.id := id;
      this.name := name;
      this.email := email;
      this.role := "";
      this.password := "";
      this.articles := [];
    }

    /** How Doctrine rebuilds a stored user: the fields are written
        directly, without running the constructor. */
    constructor Hydrate(id: int, email: string, role: string, password: string, name: string)
      ensures this.id == id && this.email == email && this.role == role
      ensures this.password == password && this.name == name && articles == []
    {
      this.id := id;
      this.email := email;
      this.role := role;
      this.password := password;
      this.name := name;
      this.articles := [];
    }

    /** `new User($name, $email)`: throws InvalidArgumentException when the
        email trims to the empty string, and otherwise stores name and email
        with an empty articles collection. */
    static method New(id: int, name: string, email: string) returns (r: Result<User>)
      ensures r.Err? <==> IsBlank(email)
      ensures r.Err? ==> r.error == InvalidArgument(USER_EMAIL_EMPTY)
      ensures r.Ok? ==> fresh(r.value) && r.value.Valid()
      ensures r.Ok? ==> r.value.id == id && r.value.name == name && r.value.email == email
      ensures r.Ok? ==> r.value.role == "" && r.value.password == "" && r.value.articles == []
    {
      if Trim(email) == "" {
        return Err(InvalidArgument(USER_EMAIL_EMPTY));
      }
      var user := new User(id, name, email);
      return Ok(user);
    }

    /** `setEmail`: a blank email is rejected and leaves the stored one;
        otherwise only the email changes. */
    method SetEmail(email: string) returns (r: Result<User>)
      modifies this
      ensures r.Err? <==> IsBlank(email)
      ensures r.Err? ==> r.error == InvalidArgument(USER_EMAIL_EMPTY) && this.email == old(this.email)
      ensures r.Ok? ==> r.value == this && this.email == email
      ensures role == old(role) && password == old(password) && name == old(name) && articles == old(articles)
      ensures old(Valid()) ==> Valid()
    {
      if Trim(email) == "" {
        return Err(InvalidArgument(USER_EMAIL_EMPTY));
      }
      this.email := email;
      return Ok(this);
    }

    /** `getUserIdentifier`: the email, or a LogicException when it is the
        empty string. */
    function UserIdentifier(): (r: Result<string>)
      reads this
      ensures r.Err? <==> email == ""
      ensures r.Ok? ==> r.value == email
      ensures r.Err? ==> r.error == Logic(USER_EMAIL_EMPTY)
    {
      if email == "" then Err(Logic(USER_EMAIL_EMPTY)) else Ok(email)
    }

    /** The LogicException of `getUserIdentifier` cannot happen on a user
        built by the constructor or changed by `setEmail`. */
    lemma ValidHasIdentifier()
      requires Valid()
      ensures UserIdentifier() == Ok(email)
    {
    }

    /** `getRoles`: the base role ROLE_USER followed by the stored role. */
    function Roles(): (r: seq<string>)
      reads this
      ensures |r| == 2 && r[0] == "ROLE_USER" && r[1] == role
    {
      ["ROLE_USER", role]
    }

    /** `setRole`: no validation; only the role changes. */
    method SetRole(role: string) returns (self: User)
      modifies this
      ensures self == this && this.role == role
      ensures email == old(email) && password == old(password) && name == old(name) && articles == old(articles)
    {
      this.role := role;
      return this;
    }

    /** `setPassword`: only the (hashed) password changes. */
    method SetPassword(password: string) returns (self: User)
      modifies this
      ensures self == this && this.password == password
      ensures email == old(email) && role == old(role) && name == old(name) && articles == old(articles)
    {
      this.password := password;
      return this;
    }

    /** `setName`: only the name changes. */
    method SetName(name: string) returns (self: User)
      modifies this
      ensures self == this && this.name == name
      ensures email == old(email) && role == old(role) && password == old(password) && articles == old(articles)
    {
      this.name := name;
      return this;
    }

    /** `addArticle`: an article already in the collection changes nothing;
        otherwise it is appended once and its author becomes this user. */
    method AddArticle(article: Article) returns (self: User)
      modifies this, article
      ensures self == this
      ensures articles == AddOnce(old(articles), article)
      ensures article.author == if old(article in articles) then old(article.author) else this
      ensures email == old(email) && role == old(role) && password == old(password) && name == old(name)
      ensures article.title == old(article.title) && article.content == old(article.content)
      ensures article.createdAt == old(article.createdAt) && article.updatedAt == old(article.updatedAt)
    {
      if article !in articles {
        articles := articles + [article];
        var _ := article.SetAuthor(this);
      }
      return this;
    }

    /** `removeElement` on the collection: only its first occurrence of the
        article goes; the article's author is not touched. */
    method RemoveArticle(article: Article) returns (self: User)
      modifies this
      ensures self == this
      ensures articles == RemoveFirst(old(articles), article)
      ensures article.author == old(article.author)
      ensures email == old(email) && role == old(role) && password == old(password) && name == old(name)
    {
      articles := RemoveFirst(articles, article);
      return this;
    }
  }

  class Article {
    const id: int
    var title: string
    var content: Option<string>
    /** `null` until `setAuthor` is first called. */
    var author: User?
    var createdAt: Timestamp
    var updatedAt: Option<Timestamp>

    /** `new Article()`: no content, no update time, created now. The title
        is not assigned by the constructor and starts out empty here. */
    constructor (id: int, now: Timestamp)
      ensures this.id == id && createdAt == now
      ensures content == None && updatedAt == None && author == null && title == ""
    {
      this.id := id;
      this.title := "";
      this.content := None;
      this.author := null;
      this.createdAt := now;
      this.updatedAt := None;
    }

    /** How Doctrine rebuilds a stored article. */
    constructor Hydrate(id: int, title: string, content: Option<string>, author: User,
                        createdAt: Timestamp, updatedAt: Option<Timestamp>)
      ensures this.id == id && this.title == title && this.content == content
      ensures this.author == author && this.createdAt == createdAt && this.updatedAt == updatedAt
    {
      this.id := id;
      this.title := title;
      this.content := content;
      this.author := author;
      this.createdAt := createdAt;
      this.updatedAt := updatedAt;
    }

    method SetTitle(title: string) returns (self: Article)
      modifies this
      ensures self == this && this.title == title
      ensures content == old(content) && author == old(author)
      ensures createdAt == old(createdAt) && updatedAt == old(updatedAt)
    {
      this.title := title;
      return this;
    }

    /** `setContent` accepts null. */
    method SetContent(content: Option<string>) returns (self: Article)
      modifies this
      ensures self == this && this.content == content
      ensures title == old(title) && author == old(author)
      ensures createdAt == old(createdAt) && updatedAt == old(updatedAt)
    {
      this.content := content;
      return this;
    }

    /** `setAuthor` sets only this side of the relation: unlike
        `User::addArticle`, the author's collection is left as it was. */
    method SetAuthor(author: User) returns (self: Article)
      modifies this
      ensures self == this && this.author == author
      ensures author.articles == old(author.articles)
      ensures title == old(title) && content == old(content)
      ensures createdAt == old(createdAt) && updatedAt == old(updatedAt)
    {
      this.author := author;
      return this;
    }

    method SetCreatedAt(createdAt: Timestamp) returns (self: Article)
      modifies this
      ensures self == this && this.createdAt == createdAt
      ensures title == old(title) && content == old(content)
      ensures author == old(author) && updatedAt == old(updatedAt)
    {
      this.createdAt := createdAt;
      return this;
    }

    /** `setUpdatedAt` accepts null. */
    method SetUpdatedAt(updatedAt: Option<Timestamp>) returns (self: Article)
      modifies this
      ensures self == this && this.updatedAt == updatedAt
      ensures title == old(title) && content == old(content)
      ensures author == old(author) && createdAt == old(createdAt)
    {
      this.updatedAt := updatedAt;
      return this;
    }
  }

  /** A PHP `object` as the transformers receive it: one of the two
      entities, or an object of some other class. */
  datatype Object = ArticleObject(article: Article) | UserObject(user: User) | OtherObject

  /** The heap objects whose fields a function over `o` may read. */
  function ObjectFootprint(o: Object): set<object>
  {
    match o
    case ArticleObject(a) => {a}
    case UserObject(u) => {u}
    case OtherObject => {}
  }

  /** A PHP value as a `mixed` parameter receives it: an object, a string
      (such as a class name), or `null`. */
  datatype Value = Obj(obj: Object) | Str(s: string) | Null

  predicate IsArticle(v: Value) { v.Obj? && v.obj.ArticleObject? }

  predicate IsUser(v: Value) { v.Obj? && v.obj.UserObject? }

  function Footprint(v: Value): set<object>
  {
    if v.Obj? then ObjectFootprint(v.obj) else {}
  }
}
