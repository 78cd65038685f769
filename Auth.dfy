/** The Authorization header: how the frontend builds it
    (frontend/src/lib/api.js) and how `current_user` in backend/app.py reads
    it. The scheme is that of section 2.1 of RFC 6750 ("Bearer" followed by
    the token), with the scheme name compared case-insensitively. Decoding
    the token and looking up the user are not part of this model. */
module Auth {
  import opened Wrappers
  import opened Text

  /** `current_user`'s header check: the header, split on whitespace, must
      have exactly two fields, the first of which lower-cases to "bearer";
      the second is the token. A missing header reads as the empty one. */
  function ParseBearer(header: string): (token: Option<string>)
    ensures token.Some? ==> token.value != [] && NoSpace(token.value)
    ensures token.Some? ==> exists scheme :: Lower(scheme) == "bearer" && Fields(header) == [scheme, token.value]
  {
    var parts := Fields(header);
    if |parts| == 2 && Lower(parts[0]) == "bearer" then Some(parts[1]) else None
  }

  /** `setAuthToken`: a truthy token is sent as `'Bearer ' + token`; without
      one the header is removed. */
  function AuthHeader(token: string): (header: Option<string>) {
    if token != "" then Some("Bearer " + token) else None
  }

  /** The header the server reads: a removed header is the empty string. */
  function Received(header: Option<string>): string {
    header.GetOr("")
  }

  /** A scheme name that is one field and lower-cases to "bearer" (in any
      letter case), a space, then the token: the header is accepted exactly
      when the token is a single field, and it yields the token itself
      exactly when the token is non-empty and has no whitespace. */
  lemma SchemeThenToken(scheme: string, t: string)
    requires scheme != [] && NoSpace(scheme) && Lower(scheme) == "bearer"
    ensures ParseBearer(scheme + " " + t).Some? <==> |Fields(t)| == 1
    ensures ParseBearer(scheme + " " + t) == Some(t) <==> t != [] && NoSpace(t)
  {
    assert AllSpace(" ");
    FieldsWordThenSpace(scheme, " ", t);
    FieldsSingle(t);
    if |Fields(t)| == 1 {
      assert Fields(scheme + " " + t) == [scheme, Fields(t)[0]];
    }
  }

  lemma NoSpaceBearer()
    ensures NoSpace("Bearer") && Lower("Bearer") == "bearer"
  {
    assert forall i :: 0 <= i < 6 ==> !IsSpace("Bearer"[i]);
  }

  /** The header the frontend sends for a token is accepted by the backend
      with that very token if and only if the token is non-empty and has no
      whitespace; it is accepted at all exactly when the token splits into
      one field. */
  lemma FrontendHeaderAccepted(token: string)
    ensures ParseBearer(Received(AuthHeader(token))) == Some(token) <==> token != [] && NoSpace(token)
    ensures ParseBearer(Received(AuthHeader(token))).Some? <==> |Fields(token)| == 1
  {
    if token != "" {
      NoSpaceBearer();
      SchemeThenToken("Bearer", token);
      assert "Bearer " + token == "Bearer" + " " + token;
    } else {
      assert Fields("") == [];
    }
  }
}
