# simple-blog-api, modelled in Dafny

A model of the core of a small Symfony blog API: users with one of three
roles (admin, author, reader) and the articles they write. The model covers:

- **The role catalogue.** It maps between display roles (`admin`, `author`,
  `reader`) and system roles (`ROLE_ADMIN`, `ROLE_AUTHOR`, `ROLE_READER`).
- **Two security voters and the decision manager that combines them.**
- **Two transformers** that turn entities into JSON arrays.
- **The entities.** The User and Article entities are classes whose setters
  update their fields in place.
- **The factories** that build and partially update those entities.
- **Three controllers** whose actions read and change the database.

## Module map

| file | module | what it is |
|---|---|---|
| `php.dfy` | `Php` | The exception kinds, `Result`/`Option`, and JSON scalars. |
| `strings.dfy` | `Strings` | `strtolower`, `strtoupper`, `trim` with its default character list, and `str_starts_with`. |
| `collections.dfy` | `Collections` | The `contains`/`add` and `removeElement` of Doctrine's collection. |
| `role_converter.dfy` | `RoleConverter` | `toSystemRole`, `toPrettyRole` and the three system-role constants. |
| `entities.dfy` | `Entities` | The `User` and `Article` classes, and PHP values (`Value`) as the voters and transformers receive them. |
| `security.dfy` | `Security` | The token, the three votes, and Symfony's RoleVoter. |
| `article_voter.dfy`, `user_voter.dfy` | `ArticleVoter`, `UserVoter` | The application's two voters. |
| `access_decision_manager.dfy` | `AccessDecisionManager` | The affirmative strategy over RoleVoter, ArticleVoter and UserVoter. |
| `repository.dfy` | `Repository` | The database: rows, the schema's invariants (`Consistent`), and the `Store` class that loads and flushes them. |
| `article_transformer.dfy`, `user_transformer.dfy` | `ArticleTransformer`, `UserTransformer` | `transform` of each transformer. |
| `dto.dfy` | `Dto` | The four request payloads. |
| `user_factory.dfy`, `article_factory.dfy` | `UserFactory`, `ArticleFactory` | Creation and partial update. |
| `http.dfy` | `Http` | Status codes and response bodies. An uncaught exception becomes 403 (access denied) or 500. |
| `article_controller.dfy`, `user_controller.dfy`, `auth_register_controller.dfy` | `ArticleController`, `UserController`, `AuthRegisterController` | One method or function per route. |

### How requests meet the database

The database is a `Repository.Store` object. It holds one map of user rows
and one of article rows, plus the two auto-increment counters.

- **Stored state.** Its ghost `Valid()` is `Consistent`:
  - every email is non-blank and unique;
  - every article's author exists;
  - keys are ids below the counter.

  Every controller action keeps it.
- **Loading.** A controller action loads fresh entity objects from rows
  (`LoadUser`, `LoadArticle`), then runs the entity and factory methods on
  them.
- **Flushing.** The action writes rows back only when the source flushes, so
  an exception raised before the flush leaves the tables untouched. One
  exception comes after the flush: in `UserController.Update` the
  transformer can reject the stored role once the row has been replaced.
  The source does the same (flush, then transform).
- **Identity map.** `LoadArticle` gives the article the authenticated user's
  own object as its author exactly when the ids agree, as Doctrine's identity
  map does. That is why ArticleVoter's `===` comparison becomes a comparison
  of ids in `ArticleController.MayChange`.

The controller actions are module-level members that take the store as a
parameter. Each mutating action's `ensures` gives:

- the response for every branch;
- the whole new state of the tables;
- `unchanged(store)` on every refusal.

The read-only actions have no `modifies` clause:
- `ArticleController.Index`, `ArticleController.Show` and `UserController.Show`
  are functions;
- `UserController.Index` is a method, because it picks the failing row with a
  choice.

They build the response from the row view that `TransformIsView` ties to
`transform`.

## Model

| member | source | states |
|---|---|---|
| RoleConverter.ToSystemRole | src/Service/RoleConverter.php:19-32 | Succeeds exactly when the lower-cased input is one of admin/author/reader, and then gives that role's system name. Otherwise it throws InvalidRoleException "Role <lower-cased input> not found.". |
| RoleConverter.ToPrettyRole | src/Service/RoleConverter.php:37-50 | Succeeds exactly when the upper-cased input is one of the three system roles, and then gives its display name. Otherwise it throws "Role <upper-cased input> not found.". |
| RoleConverter.NamesAreCaseFolded | src/Service/RoleConverter.php:12-14 | Display names are fixed by lower-casing and system names by upper-casing. |
| RoleConverter.Catalogue | src/Service/RoleConverter.php:27-31 | admin→ROLE_ADMIN, author→ROLE_AUTHOR, reader→ROLE_READER, and back again in the other direction. |
| RoleConverter.ToSystemRoleIsInjective | src/Service/RoleConverter.php:12-14 | A successful toSystemRole is always one of the three constants. Two inputs give the same result exactly when their lower-case forms agree. |
| RoleConverter.ToSystemRoleIgnoresCase | src/Service/RoleConverter.php:21 | toSystemRole gives the same result on an input and on its upper- or lower-cased form. |
| RoleConverter.ToPrettyRoleIgnoresCase | src/Service/RoleConverter.php:39 | toPrettyRole gives the same result on an input and on its lower- or upper-cased form. |
| RoleConverter.PrettyRoundTrip | src/Service/RoleConverter.php:19-50 | For a valid display role s, toPrettyRole(toSystemRole(s)) == lower(s). |
| RoleConverter.SystemRoundTrip | src/Service/RoleConverter.php:19-50 | For a valid system role r, toSystemRole(toPrettyRole(r)) == upper(r). |
| RoleConverter.SystemRoleOfSpelled | src/Service/RoleConverter.php:21-31 | An input that lower-cases, character by character, to a display name maps to that role's system name. |
| RoleConverter.PrettyRoleOfSpelled | src/Service/RoleConverter.php:39-49 | An input that upper-cases, character by character, to a system name maps to that role's display name. |
| RoleConverter.ToSystemRoleExamples | tests/Unit/RoleConverterTest.php:35-50 | ADMIN, Author and ReAdeR map to ROLE_ADMIN, ROLE_AUTHOR and ROLE_READER. |
| RoleConverter.ToSystemRoleRejectsExample | tests/Unit/RoleConverterTest.php:52-63 | invalid_role throws "Role invalid_role not found.". |
| RoleConverter.ToPrettyRoleExamples | tests/Unit/RoleConverterTest.php:82-97 | role_admin, ROLE_author and role_READER map to admin, author and reader. |
| RoleConverter.ToPrettyRoleRejectsExample | tests/Unit/RoleConverterTest.php:99-110 | ROLE_INVALID throws "Role ROLE_INVALID not found.". |
| Strings.ToLower | src/Service/RoleConverter.php:21 | strtolower keeps the length, leaves no ASCII upper-case letter, and keeps every character that is not one in place. Its case-forgetting laws are Strings.LowerAfterUpper and Strings.LowerOfLowerCase. |
| Strings.ToUpper | src/Service/RoleConverter.php:39 | strtoupper keeps the length, leaves no ASCII lower-case letter, and keeps every character that is not one in place. Its case-forgetting laws are Strings.UpperAfterLower and Strings.UpperOfUpperCase. |
| Strings.BlankIffAllTrimChars | src/Entity/User.php:48-50 | An email is blank after `trim` exactly when every character is one that trim strips. |
| Collections.AddOnceIdempotent | src/Entity/User.php:196-204 | After an add-once the article is present, a second add-once changes nothing, and a duplicate-free collection stays duplicate-free. |
| Collections.RemoveFirstAt | src/Entity/User.php:209-214 | Removing an absent element changes nothing. Removing a present one takes out exactly its first occurrence and keeps the order of the rest. |
| Collections.RemoveFirstDistinct | src/Entity/User.php:209-214 | In a duplicate-free collection, the removed element is gone afterwards and the collection stays duplicate-free. |
| Collections.RemoveUndoesAdd | src/Entity/User.php:196-214 | removeArticle undoes an addArticle of an article that was not there. |
| Entities.User.constructor | src/Entity/User.php:46-55 | Once the guard has passed: stores id, name and email; the articles collection is empty; Valid() holds. |
| Entities.User.New | src/Entity/User.php:46-55 | `new User`: fails exactly when the email is blank, with InvalidArgumentException "User email cannot be empty.". Otherwise it gives a fresh valid user with the given name and email and no articles. |
| Entities.User.SetEmail | src/Entity/User.php:76-85 | A blank email is rejected and the stored email is kept. Otherwise only the email changes and the same object is returned. Valid() is preserved. |
| Entities.User.UserIdentifier | src/Entity/User.php:92-99 | LogicException exactly when the email is "", and the email otherwise. |
| Entities.User.ValidHasIdentifier | src/Entity/User.php:92-99 | On a user whose email passed the constructor's or setEmail's guard, getUserIdentifier always returns the email. |
| Entities.User.Roles | src/Entity/User.php:104-110 | Exactly ['ROLE_USER', role], in that order. No other contract depends on it, because the token's roles are a parameter (see Left out). |
| Entities.User.SetRole | src/Entity/User.php:123-128 | Only the role changes, with no validation; returns the same object. |
| Entities.User.SetPassword | src/Entity/User.php:141-146 | Only the password changes; returns the same object. |
| Entities.User.SetName | src/Entity/User.php:176-181 | Only the name changes; returns the same object. |
| Entities.User.AddArticle | src/Entity/User.php:196-204 | The collection becomes AddOnce(old, article). The article's author becomes this user only if the article was not yet in the collection. Nothing else changes. |
| Entities.User.RemoveArticle | src/Entity/User.php:209-214 | The collection becomes RemoveFirst(old, article). The article's author and the user's other fields are unchanged. |
| Entities.Article.constructor | src/Entity/Article.php:36-39 | content and updatedAt are null, createdAt is the current time, and there is no author. |
| Entities.Article.SetTitle | src/Entity/Article.php:60-65 | Only the title changes; returns the same object. |
| Entities.Article.SetContent | src/Entity/Article.php:78-83 | Only the content changes, and it may be null; returns the same object. |
| Entities.Article.SetAuthor | src/Entity/Article.php:96-101 | Only the author changes, and the new author's articles collection is left as it was; returns the same object. |
| Entities.Article.SetCreatedAt | src/Entity/Article.php:114-119 | Only createdAt changes; returns the same object. |
| Entities.Article.SetUpdatedAt | src/Entity/Article.php:132-137 | Only updatedAt changes, and it may be null; returns the same object. |
| ArticleVoter.Vote | src/Security/ArticleVoter.php:24-49 | Abstains exactly unless the attribute is edit or delete and the subject is an Article. It grants exactly when the question is supported, the token has a user, and that user is an admin or is the article's author. |
| ArticleVoter.VoteOutcome | src/Security/ArticleVoter.php:51-58 | The vote including the exception that reading an unset author raises. It throws the engine's Error exactly when the question is supported, the user is not an admin, and the article's author was never set; otherwise it is the verdict of Vote. |
| ArticleVoter.AuthoredArticleVoteIsVote | src/Security/ArticleVoter.php:57 | For an article with an author, the vote never throws and equals Vote. |
| ArticleVoter.VoteAsWritten | src/Security/ArticleVoter.php:33-63 | The vote as written throws the private-constant Error exactly when the question is supported and the token has a user; otherwise it agrees with Vote and never grants. |
| AccessDecisionManager.DecideAsWritten | src/Controller/ArticleController.php:94 | As written, the decision throws the voter's Error exactly when ArticleVoter supports the question and the token has a user; otherwise edit and delete are never granted. |
| ArticleController.ChangeFailsAsWritten | src/Controller/ArticleController.php:93-94 | As written, every authenticated edit or delete that reaches the voter gets a 500 carrying the private-constant Error, while the intended decision grants admins and the article's author and refuses every other user. |
| ArticleVoter.CanEditAsWritten | src/Security/ArticleVoter.php:51-58 | As written, canEdit always throws an Error, because it fetches a private constant of RoleConverter. What this does to the vote is stated by ArticleVoter.VoteAsWritten, and what it does to the routes by ArticleController.ChangeFailsAsWritten. |
| ArticleVoter.OwnerEditFailsAsWritten | src/Security/ArticleVoter.php:53 | An author editing their own article without ROLE_ADMIN gets an Error from the code as written, and is granted by the intended check. |
| ArticleVoter.DeleteIsEdit | src/Security/ArticleVoter.php:60-63 | The delete vote always equals the edit vote for the same token and article. |
| ArticleVoter.AdminMayChangeAnyArticle | src/Security/ArticleVoter.php:53-55 | A token with a user and ROLE_ADMIN is granted edit and delete on every article. |
| ArticleVoter.OthersMayChangeOnlyTheirOwn | src/Security/ArticleVoter.php:57 | Without ROLE_ADMIN, edit or delete is granted exactly when the user is the article's author. The voter never abstains on these questions. |
| UserVoter.Vote | src/Security/UserVoter.php:24-40 | Abstains exactly unless the attribute is one of the four ARTICLE_* attributes and the subject is a User or the string "App\Entity\User". Otherwise it grants exactly when the token holds ROLE_ADMIN. |
| UserVoter.VerdictIgnoresSubject | src/Security/UserVoter.php:33-40 | The verdict is the same for any two users, and the same as for the class name. |
| AccessDecisionManager.AllAbstainDenies | src/Security/UserVoter.php:24-31 | When every voter abstains, access is denied. The abstain paths are the `supports` checks of both voters (this one and src/Security/ArticleVoter.php:24-31) and RoleVoter's on non-`ROLE_` attributes; the deny-when-nobody-grants rule is the framework's affirmative strategy, not application code. |
| AccessDecisionManager.RoleGate | src/Security/UserVoter.php:35 | A ROLE_ attribute asked with any subject is granted exactly when the token holds that role. |
| AccessDecisionManager.ArticleAttributesFollowArticleVoter | src/Controller/ArticleController.php:94 | `denyAccessUnlessGranted(edit/delete, $article)` grants exactly when ArticleVoter grants. |
| AccessDecisionManager.UserAttributesFollowUserVoter | src/Security/UserVoter.php:15-18 | The four ARTICLE_* attributes are granted exactly when UserVoter grants. |
| ArticleTransformer.Transform | src/Transformer/ArticleTransformer.php:19-33 | A non-object is a TypeError. A non-Article object throws "Entity is not instanceof App\Entity\Article". An article without an author throws an Error. Otherwise the result has exactly the six keys: id, title and content copied; author_id the author's id; created_at formatted; updated_at null exactly when updatedAt is null, and formatted otherwise. |
| ArticleTransformer.TransformIsView | src/Transformer/ArticleTransformer.php:25-32 | On an article with an author, transform is the view of the article's stored row. |
| ArticleTransformer.ViewDeterminesRow | src/Transformer/ArticleTransformer.php:25-32 | With an injective date format, equal outputs come from equal rows, so no field is lost. |
| UserTransformer.Transform | src/Transformer/UserTransformer.php:25-39 | A non-object is a TypeError. A non-User object throws "Entity is not instanceof App\Entity\User". A role toPrettyRole rejects propagates its InvalidRoleException. Otherwise the result has exactly the keys id, name, email and role: the first three copied, role == toPrettyRole(role), and no password. |
| UserTransformer.TransformIsView | src/Transformer/UserTransformer.php:33-38 | transform of a user is the view of the user's stored row. |
| UserTransformer.ConvertedRoleTransforms | src/Transformer/UserTransformer.php:31 | A role that came from toSystemRole(s) always transforms, and is displayed as lower(s). |
| UserTransformer.DisplayedRoleRoundTrips | src/Transformer/UserTransformer.php:31 | toSystemRole of the displayed role gives back the stored role, upper-cased. |
| UserTransformer.ViewDeterminesIdentity | src/Transformer/UserTransformer.php:33-38 | Equal outputs mean equal id, name and email, and roles that are equal up to case. |
| UserFactory.CreateFailure | src/Factory/UserFactory.php:27-43 | The first failure in source order: the duplicate email, then the blank email in the User constructor, then the invalid role. There is none exactly when the email is free and non-blank and the role is valid. |
| UserFactory.CreateFromParameters | src/Factory/UserFactory.php:74-91 | Fails exactly with CreateFailure. Otherwise it gives a fresh user with no articles, whose row is (id, email, toSystemRole(role), hash(password), name). |
| UserFactory.CreateFromDto | src/Factory/UserFactory.php:27-43 | The same as CreateFromParameters on the DTO's fields. |
| UserFactory.CreatedRowFits | src/Factory/UserFactory.php:29-40 | When creation succeeds, the email is free and non-blank and the stored role is one of the three. |
| UserFactory.EmailFailure | src/Factory/UserFactory.php:54-62 | The email step fails only when an email is given, and then exactly when it differs from the current one and is taken, or when it is blank. |
| UserFactory.UpdateFailure | src/Factory/UserFactory.php:48-69 | The update fails exactly when the email step fails or a given role is invalid. |
| UserFactory.UpdateFromDto | src/Factory/UserFactory.php:48-69 | Fails exactly with UpdateFailure. On success the row becomes Updated(old row, dto). On failure the new name is already set, the email is set only if the email step passed, and the role is unchanged. The password and articles never change. |
| UserFactory.ResubmittedEmailIsAccepted | src/Factory/UserFactory.php:54-61 | Re-submitting one's own non-blank email never trips the uniqueness check. |
| UserFactory.EmptyUpdateChangesNothing | src/Factory/UserFactory.php:48-69 | An all-null update succeeds and changes nothing. |
| UserFactory.UpdatedRowFits | src/Factory/UserFactory.php:48-69 | After a successful update the email is the user's own or a free one, and non-blank. A given role is one of the three. The id and password are kept. |
| ArticleFactory.UpdateFromDto | src/Factory/ArticleFactory.php:29-48 | The title and content are set exactly when given. updatedAt is set to now exactly when either was given. Author and createdAt are kept, and the same object is returned. |
| ArticleFactory.EmptyPatchChangesNothing | src/Factory/ArticleFactory.php:29-47 | With both fields null the article is unchanged. |
| ArticleFactory.PatchTouchesOnlyWhatWasGiven | src/Factory/ArticleFactory.php:31-45 | A field changes only if it was given. updatedAt moves only if something was given, and then it is now. The id, author and createdAt never change. |
| ArticleFactory.PatchIsIdempotent | src/Factory/ArticleFactory.php:29-47 | Applying the same update twice at the same time is the same as applying it once. |
| Repository.InsertUserKeepsConsistent | src/Entity/User.php:16 | Adding a user under the next id, with a free non-blank email, keeps the tables consistent, including email uniqueness. |
| Repository.ReplaceUserKeepsConsistent | src/Entity/User.php:16 | Replacing a user's row keeps the tables consistent if its email is its own or free, and non-blank. |
| Repository.RemoveUserKeepsConsistent | src/Controller/UserController.php:109-114 | Removing a user that no article points at keeps every article's author present. |
| Repository.InsertArticleKeepsConsistent | src/Entity/Article.php:27 | Adding an article under the next id, by an existing author, keeps the tables consistent. |
| Repository.ReplaceArticleKeepsConsistent | src/Entity/Article.php:27 | Replacing an article's row with the same author keeps the tables consistent. |
| Repository.Store.LoadUser | src/Controller/UserController.php:83 | `find` gives a fresh object whose fields are the stored row's. |
| Repository.Store.LoadArticle | src/Controller/ArticleController.php:88 | `find` gives a fresh article whose row is the stored one. Its author is the authenticated user's object exactly when the ids agree. |
| Repository.Store.InsertUser | src/Controller/UserController.php:70-71 | persist and flush add exactly that row under the next id and keep the tables consistent. |
| Repository.Store.ReplaceUser | src/Controller/UserController.php:91 | flush replaces exactly that user's row. |
| Repository.Store.RemoveUser | src/Controller/UserController.php:113-114 | remove and flush drop exactly that user. |
| Repository.Store.InsertArticle | src/Controller/ArticleController.php:75-76 | persist and flush add exactly that row under the next id. |
| Repository.Store.ReplaceArticle | src/Controller/ArticleController.php:112 | flush replaces exactly that article's row. |
| Repository.Store.RemoveArticle | src/Controller/ArticleController.php:132-133 | remove and flush drop exactly that article. |
| Http.Thrown | src/EventSubscriber/ExceptionSubscriber.php:29-44 | The subscriber answers only HTTP exceptions, so the framework's default handling applies: AccessDeniedException gives 403, every other exception 500, and the body carries the exception. |
| Php.OptionalString | src/Entity/Article.php:24 | A `?string` in JSON: null exactly when the value is null, and the string otherwise. |
| ArticleController.Index | src/Controller/ArticleController.php:35-43 | 403 without ROLE_READER. Otherwise 200 with exactly one transformed entry per stored article. |
| ArticleController.Show | src/Controller/ArticleController.php:48-58 | 403 without ROLE_READER. Otherwise 404 "Article not found." for a missing id, and 200 with the transformed article for a stored one. |
| ArticleController.Create | src/Controller/ArticleController.php:63-79 | 403 without ROLE_AUTHOR, and a TypeError for a token without a user; neither stores anything. Otherwise exactly one new row is stored, with the DTO's title and content, the current user as author, created now with no update time. The response is 201 with its transform. |
| ArticleController.Update | src/Controller/ArticleController.php:84-115 | In order: 403 without ROLE_AUTHOR, 404 for a missing id, then 403 unless admin or author. That last step is the intended voter (ArticleVoter.CanEdit); as written it answers 500, see ArticleController.ChangeFailsAsWritten. All three leave the store unchanged. Otherwise only that row changes, to the patch of the DTO at time now, and the response is 200 with its transform. |
| ArticleController.Delete | src/Controller/ArticleController.php:120-136 | The same gates in the same order, each leaving the store unchanged. The voter step is the intended voter (ArticleVoter.CanEdit); as written it answers 500, see ArticleController.ChangeFailsAsWritten. Otherwise exactly that article is removed and the response is 204. |
| ArticleController.ReaderCannotMutate | tests/Integration/RoleAccessTest.php:39-62 | A token without ROLE_AUTHOR fails the gate of create, update and delete. |
| UserController.Index | src/Controller/UserController.php:35-43 | 403 without ROLE_ADMIN. Otherwise 200 with one transformed entry per stored user. If one stored role cannot be shown, the listing fails with that row's exception. |
| UserController.Show | src/Controller/UserController.php:48-59 | 403 without ROLE_ADMIN. Otherwise 404 "User not found." for a missing id, and the transformed user or its exception for a stored one. |
| UserController.Create | src/Controller/UserController.php:64-74 | 403 without ROLE_ADMIN; a factory failure stores nothing and answers with its exception. Otherwise exactly one new row (next id, email, system role, hashed password, name) is stored, and the response is 201 with its transform. |
| UserController.Update | src/Controller/UserController.php:79-94 | 403 without ROLE_ADMIN, 404 for a missing id, and a factory failure; all three leave the store unchanged. Otherwise only that row changes, to Updated(row, dto), and the response is its transform or the transformer's exception. |
| UserController.Delete | src/Controller/UserController.php:99-117 | 403 without ROLE_ADMIN, 404 for a missing id, and 409 "Cannot delete user with articles." for an owner of articles, even for an admin; none of these changes anything. Otherwise exactly that user is removed and the response is 204. |
| AuthRegisterController.Register | src/Controller/AuthRegisterController.php:33-51 | With no role gate: 409 "User with this email already exists." for a taken email, storing nothing. Otherwise a factory failure stores nothing. Otherwise exactly one new user row is stored and the response is 201 "User registered successfully.". A 500 never carries the factory's duplicate-email message. |

## Left out

- ArticleVoter.Vote: for a user without ROLE_ADMIN and an article whose
  author was never set, `Vote` (and so `AccessDecisionManager.Decide`)
  answers Denied, where the source throws the engine's Error. That error is
  stated by `ArticleVoter.VoteOutcome`. `AuthoredArticleVoteIsVote` shows the
  two agree on every article with an author. The routes vote only on
  articles `Store.LoadArticle` loads, and every loaded article has one.
- Unauthenticated requests: the firewall's entry point answers 401 before any
  controller runs (the JWT "token not found" path). The model has no
  firewall; a token with no user and no roles is answered 403 by the role
  gates.
- HTTP, routing and JSON encoding: a response is a status code and a body.
  The exception subscriber's JSON error envelope is
  src/EventSubscriber/ExceptionSubscriber.php, which is not part of this model.
  Exceptions are mapped the way the framework's default error handling does:
  access denied gives 403, anything else gives 500.
- JWT login and token verification (src/Controller/AuthLoginController.php):
  this is a third-party library with no logic of the application's own.
- Password hashing: the hasher is a function parameter `hash`. Its dependency
  on the user object is not modelled.
- `User::__serialize` (src/Entity/User.php:151-157): session serialisation
  with crc32c, a foreign hash.
- Doctrine's ORM mapping and orphan removal. `find`, `findOneBy`, `persist`,
  `flush` and `remove` become map operations on `Repository.Store`.
- Entity ids: a generated id is given to the entity when the entity is built;
  Doctrine assigns it at `flush`. On two paths an entity is built and the
  request then fails:
  - `UserFactory.CreateFromParameters` when the role is invalid;
  - `ArticleController.Create` when the token has no user.

  Such an entity is dropped unobserved, so its pre-assigned id is never
  stored or shown, and the counter does not move.
- The user's `articles` collection is not stored. `UserController.Delete`
  reads it from the article rows that point at the user (`OwnsArticles`).
  `LoadUser` gives an empty collection.
- An entity's uninitialised typed properties start out as "", for the
  title, role and password. An unset article author is `null`; reading it in
  `ArticleTransformer.Transform` throws the engine's Error.
- DTO validation (`NotBlank`, `Email`, `Length`, `Choice`): the Symfony
  validator runs before a controller. The model takes the DTOs as
  already validated and does not restrict them. For example, in the model a
  role outside the catalogue reaches the role converter and gives a 500,
  where the program's `Choice` constraint makes `MapRequestPayload` answer
  422 before the controller runs.
- Fixtures (src/DataFixtures): random seeding data.
- The clock and date formatting: `now` is a `Timestamp` parameter, and
  `format('Y-m-d H:i:s')` is a function parameter `format`.
- The role hierarchy of the security configuration:
  - `Token.granted` is the set of roles the token holds after the hierarchy
    is applied.
  - `User::getRoles` (`Entities.User.Roles`) is modelled, but the token is not
    derived from it, and no other contract uses it.
- The decision manager registers RoleVoter, ArticleVoter and UserVoter. The
  framework's other voters (authenticated, expression) are not modelled.
- A token whose user is not an `App\Entity\User` is modelled as a token with
  no user (`null`).
- The order in which `findAll` returns rows: an index response is a map from
  id to entry.
- `ArticleFactory::createFromDto` and `createFromParameters`
  (src/Factory/ArticleFactory.php:18-24, 53-59): no controller calls them.
  They pass title and author to a constructor that takes no parameters. PHP
  ignores the extra arguments, so only the content is set. The article
  controller builds its articles itself, as modelled in
  `ArticleController.Create`.
- ArticleController.Update: lines 96-110 of the controller repeat
  `ArticleFactory::updateFromDto` statement for statement. The model calls
  `ArticleFactory.UpdateFromDto` instead of repeating it.
- UserFactory.CreateFromDto: `createFromDto` repeats the body of
  `createFromParameters` statement for statement. The model delegates to it.
- The transformer, factory and exception interfaces (src/Transformer/TransformerInterface.php,
  src/Factory/*Interface.php, src/Exception/InvalidRoleException.php) carry
  no logic. They appear only as signatures and as the `InvalidRole` exception.
- That a vote never changes the article or the user needs no lemma: voters
  are Dafny functions, which cannot change state.

## Findings

| source | as written | input that shows it | evidently intended | confidence | as-written member | corrected member |
|---|---|---|---|---|---|---|
| src/Security/ArticleVoter.php:53 | `canEdit` reads `RoleConverter::ROLE_ADMIN`, which is declared `private` (src/Service/RoleConverter.php:12). Fetching it from another class throws an Error. | A user who passes the ROLE_AUTHOR gate sends PUT or DELETE /articles/{id} for a stored article. The vote throws, and the response is 500 instead of 200/204 (the article's author, an admin) or 403 (another author). | Ask the decision manager about the literal role ROLE_ADMIN, then compare the user with the article's author. The integration tests expect this at tests/Integration/RoleAccessTest.php:101-120, 122-139 and 198-215. | not executed | ArticleController.ChangeFailsAsWritten (through ArticleVoter.VoteAsWritten, AccessDecisionManager.DecideAsWritten and ArticleVoter.CanEditAsWritten) | ArticleVoter.CanEdit (properties in ArticleVoter.Vote and ArticleVoter.OthersMayChangeOnlyTheirOwn), used by ArticleController.Update and ArticleController.Delete |
