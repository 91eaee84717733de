/** The library calls the handlers make, kept abstract: the model only knows
    their signatures, plus the one property of bcrypt that logging in relies on. */
module Foreign {
  import opened Wrappers

  /** A wall-clock reading, in nanoseconds since the Unix epoch (what time.Now() returns). */
  type Instant = int

  /** The token payload of internal/service/users.go: the `email` claim plus the
      registered claims "sub", "exp" and "iat" of RFC 7519 (sections 4.1.2,
      4.1.4 and 4.1.6), the latter two as NumericDate seconds. */
  datatype Claims = Claims(username: string, subject: string, expiresAt: int, issuedAt: int)

  /** The foreign functions, as values.
      - hash(password, salt): bcrypt.GenerateFromPassword at DefaultCost, with the salt it draws;
      - matches(hashed, password): bcrypt.CompareHashAndPassword reports no error;
      - sign(claims, key): token.SignedString for an HS256 token over the claims, None when it reports an error;
      - parsesAsAddress(s): net/mail.ParseAddress accepts s (address syntax of RFC 5322 section 3.4);
      - atoi(s): strconv.Atoi, None when it reports an error. */
  datatype Library = Library(
    hash: (string, string) -> string,
    matches: (string, string) -> bool,
    sign: (Claims, string) -> Option<string>,
    parsesAsAddress: string -> bool,
    atoi: string -> Option<int>)

  /** bcrypt's one promise the model uses: a hash matches the password it was made from. */
  ghost predicate HashesMatch(lib: Library)
  {
    forall password, salt :: lib.matches(lib.hash(password, salt), password)
  }
}
