/** The database behind Doctrine's entity manager: one table of user rows
    and one of article rows, keyed by their generated ids. Controllers load
    entity objects from rows (`find`), run the entities' and factories'
    methods on those objects, and write rows back only when they `flush`;
    a request that throws first leaves the tables as they were. */
module Repository {
  import opened Php
  import opened Strings
  import opened Entities

  datatype UserRow = UserRow(id: int, email: string, role: string, password: string, name: string)

  datatype ArticleRow = ArticleRow(id: int, title: string, content: Option<string>, authorId: int,
                                   createdAt: Timestamp, updatedAt: Option<Timestamp>)

  /** `findOneBy(['email' => $email])` finds a row: the match is exact. */
  predicate EmailTaken(users: map<int, UserRow>, email: string)
  {
    exists id :: id in users && users[id].email == email
  }

  /** `$user->getArticles()` is non-empty: the collection is loaded from
      the article rows that point at the user. */
  predicate OwnsArticles(articles: map<int, ArticleRow>, userId: int)
  {
    exists id :: id in articles && articles[id].authorId == userId
  }

  /** The row `flush` writes for a user object. */
  function UserRowOf(u: User): (row: UserRow)
    reads u
  {
    UserRow(u.id, u.email, u.role, u.password, u.name)
  }

  /** The row `flush` writes for an article object, whose author column
      may not be null. */
  function ArticleRowOf(a: Article): (row: ArticleRow)
    requires a.author != null
    reads a
  {
    ArticleRow(a.id, a.title, a.content, a.author.id, a.createdAt, a.updatedAt)
  }

  /** What the schema and the entities' own guards keep true of the two
      tables: keys are the rows' ids and below the auto-increment counter,
      every email is non-blank and unique (UNIQ_IDENTIFIER_EMAIL), and
      every article's author exists (the join column is not nullable). */
  predicate Consistent(users: map<int, UserRow>, articles: map<int, ArticleRow>, nextUserId: nat, nextArticleId: nat)
  {
    (forall id :: id in users ==> users[id].id == id && 0 <= id < nextUserId && !IsBlank(users[id].email)) &&
    (forall id :: id in articles ==> articles[id].id == id && 0 <= id < nextArticleId && articles[id].authorId in users) &&
    (forall i, j :: i in users && j in users && users[i].email == users[j].email ==> i == j)
  }

  /** Persisting a new user under the next id, with a free non-blank email. */
  lemma InsertUserKeepsConsistent(users: map<int, UserRow>, articles: map<int, ArticleRow>, nu: nat, na: nat, row: UserRow)
    requires Consistent(users, articles, nu, na)
    requires row.id == nu && !EmailTaken(users, row.email) && !IsBlank(row.email)
    ensures nu !in users
    ensures Consistent(users[nu := row], articles, nu + 1, na)
  {
  }

  /** Flushing a changed user: same id, and an email that is either the
      old one or free and non-blank. */
  lemma ReplaceUserKeepsConsistent(users: map<int, UserRow>, articles: map<int, ArticleRow>, nu: nat, na: nat, row: UserRow)
    requires Consistent(users, articles, nu, na)
    requires row.id in users && !IsBlank(row.email)
    requires row.email == users[row.id].email || !EmailTaken(users, row.email)
    ensures Consistent(users[row.id := row], articles, nu, na)
  {
  }

  /** Removing a user that no article points at. */
  lemma RemoveUserKeepsConsistent(users: map<int, UserRow>, articles: map<int, ArticleRow>, nu: nat, na: nat, id: int)
    requires Consistent(users, articles, nu, na) && !OwnsArticles(articles, id)
    ensures Consistent(users - {id}, articles, nu, na)
  {
    forall k | k in articles ensures articles[k].authorId in users - {id} {
      assert articles[k].authorId != id;
    }
  }

  /** Persisting a new article under the next id, by an existing author. */
  lemma InsertArticleKeepsConsistent(users: map<int, UserRow>, articles: map<int, ArticleRow>, nu: nat, na: nat, row: ArticleRow)
    requires Consistent(users, articles, nu, na)
    requires row.id == na && row.authorId in users
    ensures na !in articles
    ensures Consistent(users, articles[na := row], nu, na + 1)
  {
  }

  /** Flushing a changed article that keeps its id and author. */
  lemma ReplaceArticleKeepsConsistent(users: map<int, UserRow>, articles: map<int, ArticleRow>, nu: nat, na: nat, row: ArticleRow)
    requires Consistent(users, articles, nu, na)
    requires row.id in articles && row.authorId == articles[row.id].authorId
    ensures Consistent(users, articles[row.id := row], nu, na)
  {
  }

  class Store {
    var users: map<int, UserRow>
    var articles: map<int, ArticleRow>
    /** The next values of the two auto-increment columns. */
    var nextUserId: nat
    var nextArticleId: nat

    ghost predicate Valid()
      reads this
    {
      Consistent(users, articles, nextUserId, nextArticleId)
    }

    constructor ()
      ensures Valid() && users == map[] && articles == map[]
    {
      users := map[];
      articles := map[];
      nextUserId := 1;
      nextArticleId := 1;
    }

    /** `find($id)` on the user repository, for a row that exists: a new
        object whose fields are the row's. */
    method LoadUser(id: int) returns (u: User)
      requires id in users
      ensures fresh(u) && UserRowOf(u) == users[id] && u.articles == []
    {
      var row := users[id];
      u := new User.Hydrate(row.id, row.email, row.role, row.password, row.name);
    }

    /** `find($id)` on the article repository, for a row that exists. Its
        author is the authenticated user's own object when the ids agree,
        as Doctrine's identity map guarantees, and a newly loaded user
        otherwise. */
    method LoadArticle(id: int, principal: User?) returns (a: Article)
      requires Valid() && id in articles
      ensures fresh(a) && a.author != null && ArticleRowOf(a) == articles[id]
      ensures a.author == principal <==> principal != null && principal.id == articles[id].authorId
    {
      var row := articles[id];
      var author: User;
      if principal != null && principal.id == row.authorId {
        author := principal;
      } else {
        author := LoadUser(row.authorId);
      }
      a := new Article.Hydrate(row.id, row.title, row.content, author, row.createdAt, row.updatedAt);
    }

    /** `persist` and `flush` of a new user, under the next id. */
    method InsertUser(row: UserRow)
      requires Valid() && row.id == nextUserId && !EmailTaken(users, row.email) && !IsBlank(row.email)
      modifies this
      ensures Valid() && row.id !in old(users) && users == old(users)[row.id := row]
      ensures nextUserId == old(nextUserId) + 1
      ensures articles == old(articles) && nextArticleId == old(nextArticleId)
    {
      InsertUserKeepsConsistent(users, articles, nextUserId, nextArticleId, row);
      users := users[row.id := row];
      nextUserId := nextUserId + 1;
    }

    /** `flush` of a changed user. */
    method ReplaceUser(row: UserRow)
      requires Valid() && row.id in users && !IsBlank(row.email)
      requires row.email == users[row.id].email || !EmailTaken(users, row.email)
      modifies this
      ensures Valid() && users == old(users)[row.id := row]
      ensures articles == old(articles) && nextUserId == old(nextUserId) && nextArticleId == old(nextArticleId)
    {
      ReplaceUserKeepsConsistent(users, articles, nextUserId, nextArticleId, row);
      users := users[row.id := row];
    }

    /** `remove` and `flush` of a user no article points at. */
    method RemoveUser(id: int)
      requires Valid() && !OwnsArticles(articles, id)
      modifies this
      ensures Valid() && users == old(users) - {id}
      ensures articles == old(articles) && nextUserId == old(nextUserId) && nextArticleId == old(nextArticleId)
    {
      RemoveUserKeepsConsistent(users, articles, nextUserId, nextArticleId, id);
      users := users - {id};
    }

    /** `persist` and `flush` of a new article, under the next id. */
    method InsertArticle(row: ArticleRow)
      requires Valid() && row.id == nextArticleId && row.authorId in users
      modifies this
      ensures Valid() && row.id !in old(articles) && articles == old(articles)[row.id := row]
      ensures nextArticleId == old(nextArticleId) + 1
      ensures users == old(users) && nextUserId == old(nextUserId)
    {
      InsertArticleKeepsConsistent(users, articles, nextUserId, nextArticleId, row);
      articles := articles[row.id := row];
      nextArticleId := nextArticleId + 1;
    }

    /** `flush` of a changed article that keeps its id and author. */
    method ReplaceArticle(row: ArticleRow)
      requires Valid() && row.id in articles && row.authorId == articles[row.id].authorId
      modifies this
      ensures Valid() && articles == old(articles)[row.id := row]
      ensures users == old(users) && nextUserId == old(nextUserId) && nextArticleId == old(nextArticleId)
    {
      ReplaceArticleKeepsConsistent(users, articles, nextUserId, nextArticleId, row);
      articles := articles[row.id := row];
    }

    /** `remove` and `flush` of an article. */
    method RemoveArticle(id: int)
      requires Valid()
      modifies this
      ensures Valid() && articles == old(articles) - {id}
      ensures users == old(users) && nextUserId == old(nextUserId) && nextArticleId == old(nextArticleId)
    {
      articles := articles - {id};
    }
  }
}
