# Board service and JWT authentication, modelled in Dafny

This project models three parts of a Spring board application, with the
persistence layer, Spring Security and the JJWT library replaced by explicit
state and parameters.

- **BoardService**: post operations over a store of boards (`board_service.dfy`).
  - `getPosts` and `getPost` sort each board's comments in place, newest first.
    The response then carries only the top-level comments, those whose
    `parentCommentId` is null (`comment_order.dfy` specifies the sort and the selection).
  - `createPost` saves a new board.
  - `updatePost` and `deletePost` first check that the post exists
    (`NOT_FOUND_WRITING`). Then they check the writer-or-not-USER rule
    (`NOT_WRITER`).
- **JwtUtil**: the `Authorization: Bearer <token>` convention, token issuance and
  token validation (`jwt_util.dfy`).
  - Signing and parsing are the two functions of a `Jjwt` value and stay opaque.
  - The key is assigned by `Init`, from a secret and a derivation both fixed at construction.
- **JwtAuthFilter**: the per-request filter (`jwt_auth_filter.dfy`), over
  explicit objects.
  - The request carries the header and the `exception` attribute.
  - A `SecurityContextHolder` holds the current authentication.
  - A `FilterChain` records every hand-off to the rest of the chain.

Shared types (`Option`, `Result`, roles, error constants, the user record)
are in `common.dfy`.

The store is a `map<int, Board>` field of the `BoardService` class. It stands
for the repository as the service sees it within one unit of work. The list
that `findAllByOrderByModifiedAtDesc` returns is an input: a sequence of ids
that lists every stored board once, newest first (`IsListing`).

The current time is a parameter (`now`, milliseconds). So is the user store
that `loadUserByUsername` consults (`users`, by username).

Three facts about the code that the model keeps:
- `validateToken` turns every failure it catches into `false`; the kind of
  failure is only logged.
- A valid token for a known user writes no `exception` attribute.
- `updatePost` and `deletePost` do no authentication check of their own.
  They receive a user from their caller and check only existence, then
  ownership or role.

The claims of a token are read only on the valid-token path:
`GetUserInfoFromToken` requires a token that `ValidateToken` accepts, and the
filter calls it only after `validateToken` has returned true.

## Model

| member | source | states |
|---|---|---|
| `CommentOrder.SortNewestFirst` | src/main/java/com/sparta/board/service/BoardService.java:41-43 | the sorted comment list is a permutation of the original and is non-increasing in modifiedAt |
| `CommentOrder.InsertKeepsNewestFirst` | src/main/java/com/sparta/board/service/BoardService.java:41-43 | inserting one comment into a newest-first list adds exactly that comment and keeps the list newest first |
| `CommentOrder.SortIsStable` | src/main/java/com/sparta/board/service/BoardService.java:41-43 | comments with equal modifiedAt keep their relative order, as java.util.List.sort guarantees |
| `CommentOrder.SortOfNewestFirst` | src/main/java/com/sparta/board/service/BoardService.java:80-83 | sorting a list that is already newest first leaves it unchanged, so sorting twice changes nothing |
| `CommentOrder.FilterMembers` | src/main/java/com/sparta/board/service/BoardService.java:46-51 | the selection holds exactly the comments of the list that satisfy the test, here parentCommentId == null |
| `CommentOrder.FilterKeepsNewestFirst` | src/main/java/com/sparta/board/service/BoardService.java:86-91 | selecting from a newest-first list keeps the selection newest first |
| `CommentOrder.FilterSortCommute` | src/main/java/com/sparta/board/service/BoardService.java:41-51 | selecting after the sort gives the same list as sorting the selection |
| `CommentOrder.TopLevelOfSorted` | src/main/java/com/sparta/board/service/BoardService.java:80-91 | the comment list of a response is the board's top-level comments, sorted newest first; it contains a comment iff the board has it with a null parent |
| `CommentOrder.FilterAppend` | src/main/java/com/sparta/board/service/BoardService.java:47-51 | selection distributes over concatenation, so the loop may build it by appending one comment at a time |
| `Boards.AuthorizationMatrix` | src/main/java/com/sparta/board/service/BoardService.java:108-111 | ADMIN may always modify a post; USER may modify it iff USER wrote it |
| `Boards.CollectTopLevel` | src/main/java/com/sparta/board/service/BoardService.java:46-51 | the loop collects exactly the top-level comments, in the order of the list |
| `Boards.BoardService.GetPosts` | src/main/java/com/sparta/board/service/BoardService.java:36-55 | one response per board, in listing order, hence newest first; every stored board's comments are sorted and nothing else in the store changes; each response carries the board's top-level comments in sorted order |
| `Boards.BoardService.OrderOfResponses` | src/main/java/com/sparta/board/service/BoardService.java:36-55 | responses that follow the listing come newest first |
| `Boards.BoardService.SortAndRespond` | src/main/java/com/sparta/board/service/BoardService.java:80-94 | only the board `id` changes, and only by sorting its comments; the response is that board with its top-level comments |
| `Boards.BoardService.CreatePost` | src/main/java/com/sparta/board/service/BoardService.java:64 | adds exactly one board, under a new id, written by the user, with no comments; existing boards are untouched |
| `Boards.BoardService.GetPost` | src/main/java/com/sparta/board/service/BoardService.java:74-94 | a missing id gives NOT_FOUND_WRITING and leaves the store alone; otherwise the board's comments are sorted in place and the response carries its top-level comments |
| `Boards.BoardService.UpdatePost` | src/main/java/com/sparta/board/service/BoardService.java:102-119 | a missing id gives NOT_FOUND_WRITING whatever the role; then NOT_WRITER iff the user did not write the post and has role USER; success edits only that post; failure changes nothing |
| `Boards.BoardService.DeletePost` | src/main/java/com/sparta/board/service/BoardService.java:127-140 | same checks and precedence as updatePost; success removes exactly the entry for id; failure leaves the store untouched |
| `Jwt.IssuedClaims` | src/main/java/com/sparta/board/jwt/JwtUtil.java:63-66 | the issued claims carry subject = username, auth = role, issuedAt = now and expire 3,600,000 ms after issue |
| `Jwt.JwtUtil.Init` | src/main/java/com/sparta/board/jwt/JwtUtil.java:42-45 | the key becomes the derivation of the configured secret; secret and derivation are fixed at construction, so every call assigns the same key |
| `Jwt.JwtUtil.ResolveToken` | src/main/java/com/sparta/board/jwt/JwtUtil.java:49-55 | a token comes back iff the header has text and starts with "Bearer "; it is the header with exactly that prefix removed |
| `Jwt.JwtUtil.ResolveTokenExact` | src/main/java/com/sparta/board/jwt/JwtUtil.java:51-52 | the header resolves to t iff it equals "Bearer " + t: the offset 7 is the prefix length, nothing is trimmed, and the text test is implied by the prefix test |
| `Jwt.JwtUtil.ResolveTokenExamples` | src/main/java/com/sparta/board/jwt/JwtUtil.java:51 | "bearer abc.def.ghi", "Bearer", a blank, an empty and a missing header give null; "Bearer abc.def.ghi" gives "abc.def.ghi"; "Bearer  abc" gives " abc" (nothing is trimmed) |
| `Jwt.JwtUtil.CreateToken` | src/main/java/com/sparta/board/jwt/JwtUtil.java:61-68 | the header value is "Bearer " followed by the library's compact JWT over the issued claims |
| `Jwt.JwtUtil.ResolveCreatedToken` | src/main/java/com/sparta/board/jwt/JwtUtil.java:61-68 | resolving what createToken returns gives back exactly the compact JWT |
| `Jwt.JwtUtil.GetUserInfoFromToken` | src/main/java/com/sparta/board/jwt/JwtUtil.java:89-91 | callable only on a token `validateToken` accepted; the result is the body of that token's parse with the key |
| `Jwt.JwtUtil.ValidateToken` | src/main/java/com/sparta/board/jwt/JwtUtil.java:72-86 | total: true iff parsing with the key succeeds; each caught failure (signature or malformed, expired, unsupported, empty claims) gives false |
| `Jwt.JwtUtil.CreateAuthentication` | src/main/java/com/sparta/board/jwt/JwtUtil.java:94-97 | an authentication exists iff the user is found; its principal and authority come from the stored user, not from the token |
| `Jwt.JwtUtil.IssuedTokenValidates` | src/main/java/com/sparta/board/jwt/JwtUtil.java:61-86 | if the library parses its own tokens, a header from createToken for a username with text, presented no later than the expiry second (the expiration cut to whole seconds) resolves to a token that validates and names that user and role |
| `AuthFilter.JwtAuthFilter.DoFilterInternal` | src/main/java/com/sparta/board/jwt/JwtAuthFilter.java:29-50 | the chain runs exactly once and last. A missing or invalid token gives NOT_VALID_TOKEN with the context unchanged. A valid token for a known user installs that user's authentication with no attribute written. A valid token for an unknown user gives NOT_FOUND_USER with the context unchanged. At most one attribute write happens |
| `AuthFilter.JwtAuthFilter.SetAuthentication` | src/main/java/com/sparta/board/jwt/JwtAuthFilter.java:52-58 | the context receives the found user's authentication; a failed lookup leaves it as it was |

## Left out

- Persistence: the JPA repository, `@Transactional` and `flush()` become a map field. Its ids come from a counter (`nextId`). The database's ordering in `findAllByOrderByModifiedAtDesc` is an input (`IsListing`), not computed.
- `getPosts`/`getPost` run read-only transactions. The in-place sort therefore reaches the entities of the unit of work, not the stored rows. The model's store stands for those entities.
- Boards are values in the map. Entity identity and aliasing of one `Board` object from several places are not modelled.
- `findByIdAndUser` compares User entities. The model compares the owner's username with the user's username.
- `Board.of`, `Board.update`, `BoardResponseDto.from`, `CommentResponseDto.from` and `ResponseUtils` are not part of this model. `Board.of` is modelled as a board with the request's title and contents, the user as owner, `now` as modifiedAt and no comments. `Board.update` is modelled as new title and contents with modifiedAt set to `now`. This assumes two things. First, `update` ignores the user it receives (BoardService.java:114), so after an ADMIN edit the post still belongs to its writer. Second, the auditing listener stamps `modifiedAt` on every edit, even one that changes nothing. A response is the board paired with its comment list.
- JJWT internals are opaque functions of `Jjwt`: HS256 signing, compaction, Base64url, parsing and the truncation of dates to whole seconds.
- `Init` uses Base64 decoding and `Keys.hmacShaKeyFor` as one function `deriveKey`, fixed at construction. Their failures (bad Base64, a key that is too weak) happen at start-up and are not modelled.
- `ParseOutcome` has the success case and the four exception families that `validateToken` catches. Any other JJWT exception would escape `validateToken`; such exceptions (for example `PrematureJwtException`) are not modelled.
- `getUserInfoFromToken` parses the token a second time. With a real clock the token could expire between the two parses, and the exception would escape the filter. The model uses one `now` for both.
- `UserDetailsImpl.getAuthorities` is not part of this model. The granted authority is the stored user's role.
- Logging, the servlet response, header lookup by name (`AUTHORIZATION_HEADER`) and `new Date()` are left out. The header is a field of `Request`, and the time is a parameter.
- `AUTHORIZATION_KEY`, the name of the role claim inside the JWT, is not modelled: the claims are a record, and `Claims.auth` is that claim.
- Thread-local state of `SecurityContextHolder` and concurrency across requests are left out. The holder is an explicit object.
- Java `long` overflow of `date.getTime() + TOKEN_TIME` is not modelled. Integers are unbounded, and the sum is far from overflow for current times.
- `IsWhitespace` follows `Character.isWhitespace` for current Unicode versions. U+180E, whitespace under the Unicode 6.2 that Java 8 uses, is not whitespace here. Java strings are UTF-16 code units and Dafny strings are code points; `hasText` gives the same answer on both.
