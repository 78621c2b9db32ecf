/**
 * src/middlewares/error.middleware.ts: the status code and the text an
 * error message is answered with.  The tests are case-sensitive substring
 * tests, tried in order.
 */
module ErrorHandler {
  import opened Strings
  import opened Http
  import opened Domain
  import RequestService
  import PropertyService
  import UserService
  import CommissionService

  const InternalServerError := "Internal server error"

  function Classify(message: string): (r: Reply)
    ensures Includes(message, "not found") ==> r == Reply(404, message)
    ensures !Includes(message, "not found") && (Includes(message, "Unauthorized") || Includes(message, "Invalid"))
            ==> r == Reply(401, message)
    ensures (!Includes(message, "not found") && !Includes(message, "Unauthorized") && !Includes(message, "Invalid")
             && (Includes(message, "Insufficient") || Includes(message, "Forbidden"))) ==> r == Reply(403, message)
    ensures r.status == 500 <==>
      !Includes(message, "not found") && !Includes(message, "Unauthorized") && !Includes(message, "Invalid")
      && !Includes(message, "Insufficient") && !Includes(message, "Forbidden")
    ensures r.status == 500 ==> r.message == InternalServerError
  {
    if Includes(message, "not found") then Reply(404, message)
    else if Includes(message, "Unauthorized") || Includes(message, "Invalid") then Reply(401, message)
    else if Includes(message, "Insufficient") || Includes(message, "Forbidden") then Reply(403, message)
    else Reply(500, InternalServerError)
  }

  /** Only four statuses occur, and the message is passed through unless it is hidden behind a 500. */
  lemma ClassifyShape(message: string)
    ensures Classify(message).status in {404, 401, 403, 500}
    ensures Classify(message).status != 500 ==> Classify(message).message == message
  {
  }

  /** A message that ends with `word` includes it. */
  lemma EndsWith(m: string, word: string)
    requires |word| <= |m| && m[|m| - |word|..] == word
    ensures Includes(m, word)
  {
    assert OccursAt(m, word, |m| - |word|);
  }

  /** The "not found" messages of the request service are answered with 404. */
  lemma RequestNotFoundsGive404()
    ensures Classify(RequestService.TenantNotFound).status == 404
    ensures Classify(RequestService.PropertyNotFound).status == 404
    ensures Classify(RequestService.RequestNotFound).status == 404
  {
    EndsWith(RequestService.TenantNotFound, "not found");
    EndsWith(RequestService.PropertyNotFound, "not found");
    EndsWith(RequestService.RequestNotFound, "not found");
  }

  /** So are the other services' "not found" messages and the store's. */
  lemma OtherNotFoundsGive404()
    ensures Classify(PropertyService.OwnerNotFound).status == 404
    ensures Classify(CommissionService.CommissionerNotFound).status == 404
    ensures Classify(RecordToUpdateNotFound).status == 404
  {
    EndsWith(PropertyService.OwnerNotFound, "not found");
    EndsWith(CommissionService.CommissionerNotFound, "not found");
    EndsWith(RecordToUpdateNotFound, "not found");
  }

  /** A message the five tests all miss is answered with the fixed 500 text. */
  lemma FallsThrough(m: string)
    requires !Includes(m, "not found") && !Includes(m, "Unauthorized") && !Includes(m, "Invalid")
    requires !Includes(m, "Insufficient") && !Includes(m, "Forbidden")
    ensures Classify(m) == Reply(500, InternalServerError)
  {
  }

  /** A message that starts with `word` includes it. */
  lemma StartsWith(m: string, word: string)
    requires |word| <= |m| && m[..|word|] == word
    ensures Includes(m, word)
  {
    assert OccursAt(m, word, 0);
  }

  /** A message with "Unauthorized" or "Invalid" but without "not found" is answered with 401. */
  lemma Gives401(m: string)
    requires !Includes(m, "not found") && (Includes(m, "Unauthorized") || Includes(m, "Invalid"))
    ensures Classify(m) == Reply(401, m)
  {
  }

  lemma UpdateUnauthorizedAvoids()
    ensures Avoids(PropertyService.UpdateUnauthorized, "f")
  {
  }

  /**
   * A refused property update answers 401, not 403: its message contains
   * "Unauthorized".
   */
  lemma UnauthorizedUpdateGives401()
    ensures Classify(PropertyService.UpdateUnauthorized) == Reply(401, PropertyService.UpdateUnauthorized)
  {
    var m := PropertyService.UpdateUnauthorized;
    UpdateUnauthorizedAvoids();
    AvoidsExcludes(m, "f", "not found", 'f');
    StartsWith(m, "Unauthorized");
    Gives401(m);
  }

  /** Bad credentials answer 401. */
  lemma InvalidCredentialsGive401()
    ensures Classify(UserService.InvalidCredentials) == Reply(401, UserService.InvalidCredentials)
  {
    var m := UserService.InvalidCredentials;
    assert Avoids(m, "f");
    AvoidsExcludes(m, "f", "not found", 'f');
    StartsWith(m, "Invalid");
    Gives401(m);
  }

  lemma InsufficientAvoids()
    ensures Avoids("Insufficient permissions", "dUv")
  {
  }

  /** The role gate's text, when it reaches this handler, answers 403. */
  lemma InsufficientGives403()
    ensures Classify("Insufficient permissions") == Reply(403, "Insufficient permissions")
  {
    var m := "Insufficient permissions";
    InsufficientAvoids();
    AvoidsExcludes(m, "dUv", "not found", 'd');
    AvoidsExcludes(m, "dUv", "Unauthorized", 'U');
    AvoidsExcludes(m, "dUv", "Invalid", 'v');
    StartsWith(m, "Insufficient");
  }

  /** Matching is case-sensitive: "Not Found" falls through every test. */
  lemma CapitalisedNotFoundGives500()
    ensures Classify("Not Found") == Reply(500, InternalServerError)
  {
    var m := "Not Found";
    assert Avoids(m, "fUIb");
    AvoidsExcludes(m, "fUIb", "not found", 'f');
    AvoidsExcludes(m, "fUIb", "Unauthorized", 'U');
    AvoidsExcludes(m, "fUIb", "Invalid", 'I');
    AvoidsExcludes(m, "fUIb", "Insufficient", 'I');
    AvoidsExcludes(m, "fUIb", "Forbidden", 'b');
    FallsThrough(m);
  }

  lemma NotPendingAvoids()
    ensures Avoids(RequestService.NotPending, "fUIF")
  {
  }

  /**
   * A lifecycle refusal falls through every test and is answered with the
   * fixed 500 text.
   */
  lemma NotPendingGives500()
    ensures Classify(RequestService.NotPending) == Reply(500, InternalServerError)
  {
    var m := RequestService.NotPending;
    NotPendingAvoids();
    AvoidsExcludes(m, "fUIF", "not found", 'f');
    AvoidsExcludes(m, "fUIF", "Unauthorized", 'U');
    AvoidsExcludes(m, "fUIF", "Invalid", 'I');
    AvoidsExcludes(m, "fUIF", "Insufficient", 'I');
    AvoidsExcludes(m, "fUIF", "Forbidden", 'F');
    FallsThrough(m);
  }
}
