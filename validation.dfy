/**
 * src/middlewares/validation.middleware.ts: the validation errors of a
 * request, grouped into a map from field to messages.  Running the
 * validation chains is outside the model; their errors are the input.
 */
module Validation {
  import opened Http

  /** An error of express-validator: about a field (`type === 'field'`) or not. */
  datatype ValidationError = FieldError(path: string, msg: string) | OtherError(msg: string)

  const General := "general"
  const ValidationFailed := "Validation failed"

  /** The key an error is grouped under. */
  function KeyOf(e: ValidationError): string {
    if e.FieldError? then e.path else General
  }

  /** The keys the errors produce. */
  ghost function KeysOf(errors: seq<ValidationError>): set<string> {
    set i | 0 <= i < |errors| :: KeyOf(errors[i])
  }

  /** The messages of the errors grouped under `key`, in their original order. */
  function MessagesFor(errors: seq<ValidationError>, key: string): (ms: seq<string>)
    ensures |ms| <= |errors|
  {
    if errors == [] then []
    else
      var last := errors[|errors| - 1];
      MessagesFor(errors[..|errors| - 1], key) + (if KeyOf(last) == key then [last.msg] else [])
  }

  /**
   * The `forEach` of lines 15-22: each error's message is pushed onto the
   * list of its key, the list created on first use.
   */
  method GroupErrors(errors: seq<ValidationError>) returns (m: map<string, seq<string>>)
    ensures m.Keys == KeysOf(errors)
    ensures forall k :: k in m ==> m[k] == MessagesFor(errors, k)
  {
    m := map[];
    var i := 0;
    while i < |errors|
      invariant 0 <= i <= |errors|
      invariant m.Keys == KeysOf(errors[..i])
      invariant forall k :: k in m ==> m[k] == MessagesFor(errors[..i], k)
    {
      var e := errors[i];
      var field := KeyOf(e);
      ghost var before := m;
      if field !in m {
        MessagesForOthers(errors[..i], field);
        m := m[field := []];
      }
      m := m[field := m[field] + [e.msg]];
      assert errors[..i + 1] == errors[..i] + [e];
      SnocKeys(errors[..i], e);
      forall k | k in m ensures m[k] == MessagesFor(errors[..i + 1], k) {
        SnocMessages(errors[..i], e, k);
      }
      i := i + 1;
    }
    assert errors[..i] == errors;
  }

  /** Appending one error appends its message to its key's list only. */
  lemma SnocMessages(front: seq<ValidationError>, e: ValidationError, k: string)
    ensures MessagesFor(front + [e], k) == MessagesFor(front, k) + (if KeyOf(e) == k then [e.msg] else [])
  {
    assert (front + [e])[..|front + [e]| - 1] == front;
  }

  /** Appending one error adds its key. */
  lemma SnocKeys(front: seq<ValidationError>, e: ValidationError)
    ensures KeysOf(front + [e]) == KeysOf(front) + {KeyOf(e)}
  {
    var all := front + [e];
    forall j | 0 <= j < |front| ensures KeyOf(all[j]) in KeysOf(front) {
      assert all[j] == front[j];
    }
    forall k | k in KeysOf(front) ensures k in KeysOf(all) {
      var j :| 0 <= j < |front| && KeyOf(front[j]) == k;
      assert all[j] == front[j];
    }
    assert KeyOf(all[|front|]) == KeyOf(e);
  }

  /** A key that no error has gets no messages. */
  lemma {:induction false} MessagesForOthers(errors: seq<ValidationError>, key: string)
    requires key !in KeysOf(errors)
    ensures MessagesFor(errors, key) == []
  {
    if errors != [] {
      var front := errors[..|errors| - 1];
      assert KeysOf(front) <= KeysOf(errors) by {
        forall j | 0 <= j < |front| ensures KeyOf(front[j]) in KeysOf(errors) {
          assert front[j] == errors[j];
        }
      }
      MessagesForOthers(front, key);
      assert KeyOf(errors[|errors| - 1]) in KeysOf(errors);
    }
  }

  /** How many errors before position `i` share the key of error `i`. */
  function Rank(errors: seq<ValidationError>, i: nat): nat
    requires i < |errors|
  {
    |MessagesFor(errors[..i], KeyOf(errors[i]))|
  }

  /**
   * Every error's message is in its key's list, at the position given by the
   * number of earlier errors with the same key: order is preserved.
   */
  lemma {:induction false} Placement(errors: seq<ValidationError>, i: nat)
    requires i < |errors|
    ensures Rank(errors, i) < |MessagesFor(errors, KeyOf(errors[i]))|
    ensures MessagesFor(errors, KeyOf(errors[i]))[Rank(errors, i)] == errors[i].msg
    decreases |errors|
  {
    var key := KeyOf(errors[i]);
    if i == |errors| - 1 {
      assert errors[..|errors| - 1] == errors[..i];
    } else {
      var front := errors[..|errors| - 1];
      assert front[..i] == errors[..i] && front[i] == errors[i];
      Placement(front, i);
      assert errors == front + [errors[|errors| - 1]];
      SnocMessages(front, errors[|errors| - 1], key);
    }
  }

  /** The positions of the errors grouped under `key`. */
  ghost function PositionsOf(errors: seq<ValidationError>, key: string): set<nat> {
    set i: nat | i < |errors| && KeyOf(errors[i]) == key
  }

  /** Appending one error adds its position to its key's positions only. */
  lemma SnocPositions(front: seq<ValidationError>, e: ValidationError, key: string)
    ensures PositionsOf(front + [e], key) == PositionsOf(front, key) + (if KeyOf(e) == key then {|front|} else {})
  {
    var all := front + [e];
    forall i: nat | i < |front| ensures all[i] == front[i] {
    }
  }

  /** Each key's list holds exactly as many messages as there are errors with that key. */
  lemma {:induction false} ExactlyOnce(errors: seq<ValidationError>, key: string)
    ensures |MessagesFor(errors, key)| == |PositionsOf(errors, key)|
  {
    if errors != [] {
      var n := |errors| - 1;
      var front := errors[..n];
      assert front + [errors[n]] == errors;
      ExactlyOnce(front, key);
      SnocMessages(front, errors[n], key);
      SnocPositions(front, errors[n], key);
      assert n !in PositionsOf(front, key);
    }
  }

  /** What `validate` does after the chains ran. */
  datatype Checked = Pass | Fail(reply: Reply, errors: map<string, seq<string>>)

  /**
   * `validate`: no error lets the request on; otherwise it is answered with
   * 400 "Validation failed" and the grouped errors.
   */
  method Validate(errors: seq<ValidationError>) returns (c: Checked)
    ensures c.Pass? <==> errors == []
    ensures c.Fail? ==> c.reply == Reply(400, ValidationFailed)
    ensures c.Fail? ==> c.errors.Keys == KeysOf(errors)
                        && forall k :: k in c.errors ==> c.errors[k] == MessagesFor(errors, k)
  {
    if errors == [] {
      return Pass;
    }
    var m := GroupErrors(errors);
    c := Fail(Reply(400, ValidationFailed), m);
  }

  /** Errors that are not about a field all land under "general". */
  lemma GeneralCollectsOthers(errors: seq<ValidationError>, i: nat)
    requires i < |errors| && errors[i].OtherError?
    ensures errors[i].msg in MessagesFor(errors, General)
  {
    Placement(errors, i);
  }
}
