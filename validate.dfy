/**
 * The validation middleware of validate.js: HTML escaping of strings, and
 * the 400 response built from the validator's error list.
 */
module Validate {
  import opened Common
  import Errors

  // ---------------------------------------------------------------------------
  // sanitizeString (validate.js:39-48).

  /** `str.replace(/c/g, rep)` for a single-character pattern. */
  function ReplaceAll(s: string, c: char, rep: string): (r: string)
    ensures c !in s ==> r == s
    ensures rep != [] ==> |r| >= |s|
  {
    if s == [] then []
    else (if s[0] == c then rep else [s[0]]) + ReplaceAll(s[1..], c, rep)
  }

  lemma {:induction false} ReplaceAllConcat(a: string, b: string, c: char, rep: string)
    ensures ReplaceAll(a + b, c, rep) == ReplaceAll(a, c, rep) + ReplaceAll(b, c, rep)
    decreases |a|
  {
    if a != [] {
      assert (a + b)[1..] == a[1..] + b;
      ReplaceAllConcat(a[1..], b, c, rep);
    } else {
      assert a + b == b;
    }
  }

  /** The five `replace` calls in their order: '&' first, then < > " '. */
  function SanitizeText(s: string): (r: string)
    ensures |r| >= |s|
    ensures (forall i :: 0 <= i < |s| ==> s[i] !in "&<>\"'") ==> r == s
  {
    var s1 := ReplaceAll(s, '&', "&amp;");
    var s2 := ReplaceAll(s1, '<', "&lt;");
    var s3 := ReplaceAll(s2, '>', "&gt;");
    var s4 := ReplaceAll(s3, '"', "&quot;");
    ReplaceAll(s4, '\'', "&#x27;")
  }

  /** `sanitizeString`: a non-string is returned as it is. */
  function SanitizeString(v: Value): (r: Value)
    ensures !v.Str? ==> r == v
    ensures v.Str? ==> r.Str? && r.s == EscapeAll(v.s)
  {
    if v.Str? then
      SanitizeIsSinglePassEscape(v.s);
      Str(SanitizeText(v.s))
    else v
  }

  predicate IsSpecial(c: char)
  {
    c == '&' || c == '<' || c == '>' || c == '"' || c == '\''
  }

  /** The entity of one character; every other character stands for itself. */
  function EscapeChar(c: char): (e: string)
    ensures !IsSpecial(c) ==> e == [c]
  {
    match c
    case '&' => "&amp;"
    case '<' => "&lt;"
    case '>' => "&gt;"
    case '"' => "&quot;"
    case '\'' => "&#x27;"
    case _ => [c]
  }

  /** A single left-to-right pass replacing each character by its entity. */
  function EscapeAll(s: string): string
  {
    if s == [] then [] else EscapeChar(s[0]) + EscapeAll(s[1..])
  }

  lemma {:induction false} SanitizeConcat(a: string, b: string)
    ensures SanitizeText(a + b) == SanitizeText(a) + SanitizeText(b)
  {
    var s1a, s1b := ReplaceAll(a, '&', "&amp;"), ReplaceAll(b, '&', "&amp;");
    ReplaceAllConcat(a, b, '&', "&amp;");
    var s2a, s2b := ReplaceAll(s1a, '<', "&lt;"), ReplaceAll(s1b, '<', "&lt;");
    ReplaceAllConcat(s1a, s1b, '<', "&lt;");
    var s3a, s3b := ReplaceAll(s2a, '>', "&gt;"), ReplaceAll(s2b, '>', "&gt;");
    ReplaceAllConcat(s2a, s2b, '>', "&gt;");
    var s4a, s4b := ReplaceAll(s3a, '"', "&quot;"), ReplaceAll(s3b, '"', "&quot;");
    ReplaceAllConcat(s3a, s3b, '"', "&quot;");
    ReplaceAllConcat(s4a, s4b, '\'', "&#x27;");
  }

  lemma {:induction false} ReplaceAllOne(c: char, d: char, rep: string)
    ensures ReplaceAll([c], d, rep) == (if c == d then rep else [c])
  {
    assert [c][1..] == [];
  }

  lemma {:induction false} SanitizeOneChar(c: char)
    ensures SanitizeText([c]) == EscapeChar(c)
  {
    ReplaceAllOne(c, '&', "&amp;");
    if c == '&' {
      assert '<' !in "&amp;" && '>' !in "&amp;" && '"' !in "&amp;" && '\'' !in "&amp;";
    } else {
      ReplaceAllOne(c, '<', "&lt;");
      if c == '<' {
        assert '>' !in "&lt;" && '"' !in "&lt;" && '\'' !in "&lt;";
      } else {
        ReplaceAllOne(c, '>', "&gt;");
        if c == '>' {
          assert '"' !in "&gt;" && '\'' !in "&gt;";
        } else {
          ReplaceAllOne(c, '"', "&quot;");
          if c == '"' {
            assert '\'' !in "&quot;";
          } else {
            ReplaceAllOne(c, '\'', "&#x27;");
          }
        }
      }
    }
  }

  /**
   * Because '&' is replaced first, no entity produced by a later replacement
   * is escaped again: the chain of five replacements is exactly one pass
   * mapping each character to its entity.
   */
  lemma {:induction false} SanitizeIsSinglePassEscape(s: string)
    ensures SanitizeText(s) == EscapeAll(s)
    decreases |s|
  {
    if s != [] {
      assert s == [s[0]] + s[1..];
      SanitizeConcat([s[0]], s[1..]);
      SanitizeOneChar(s[0]);
      SanitizeIsSinglePassEscape(s[1..]);
    }
  }

  /** The escaped text contains no raw < > " or '. */
  lemma {:induction false} NoRawMarkup(s: string)
    ensures forall i :: 0 <= i < |EscapeAll(s)| ==>
      EscapeAll(s)[i] != '<' && EscapeAll(s)[i] != '>' && EscapeAll(s)[i] != '"' && EscapeAll(s)[i] != '\''
    decreases |s|
  {
    if s != [] {
      NoRawMarkup(s[1..]);
      var e, rest := EscapeChar(s[0]), EscapeAll(s[1..]);
      assert EscapeAll(s) == e + rest;
      forall i | 0 <= i < |e + rest|
        ensures (e + rest)[i] != '<' && (e + rest)[i] != '>' && (e + rest)[i] != '"' && (e + rest)[i] != '\''
      {
        if i >= |e| {
          assert (e + rest)[i] == rest[i - |e|];
        }
      }
    }
  }

  /** Text without any of the five characters comes back unchanged. */
  lemma {:induction false} CleanTextUnchanged(s: string)
    requires forall i :: 0 <= i < |s| ==> !IsSpecial(s[i])
    ensures SanitizeString(Str(s)) == Str(s)
    decreases |s|
  {
    if s != [] {
      CleanTextUnchanged(s[1..]);
      assert EscapeAll(s) == [s[0]] + EscapeAll(s[1..]);
      assert s == [s[0]] + s[1..];
    }
  }

  /** Decoding of the five entities, reading left to right. */
  function Unescape(t: string): string
    decreases |t|
  {
    if t == [] then []
    else if |t| >= 5 && t[..5] == "&amp;" then "&" + Unescape(t[5..])
    else if |t| >= 4 && t[..4] == "&lt;" then "<" + Unescape(t[4..])
    else if |t| >= 4 && t[..4] == "&gt;" then ">" + Unescape(t[4..])
    else if |t| >= 6 && t[..6] == "&quot;" then "\"" + Unescape(t[6..])
    else if |t| >= 6 && t[..6] == "&#x27;" then "'" + Unescape(t[6..])
    else [t[0]] + Unescape(t[1..])
  }

  lemma {:induction false} UnescapeStep(c: char, rest: string)
    ensures Unescape(EscapeChar(c) + rest) == [c] + Unescape(rest)
  {
    var e := EscapeChar(c);
    var t := e + rest;
    assert t[|e|..] == rest;
    if c == '&' {
      assert t[..5] == e;
    } else if c == '<' {
      assert t[..4] == e && (|t| >= 5 ==> t[..5] != "&amp;") by { assert t[1] == 'l'; }
    } else if c == '>' {
      assert t[..4] == e && (|t| >= 5 ==> t[..5] != "&amp;") && t[..4] != "&lt;" by { assert t[1] == 'g'; }
    } else if c == '"' {
      assert t[..6] == e && t[..5] != "&amp;" && t[..4] != "&lt;" && t[..4] != "&gt;" by { assert t[1] == 'q'; }
    } else if c == '\'' {
      assert t[..6] == e && t[..5] != "&amp;" && t[..4] != "&lt;" && t[..4] != "&gt;" && t[..6] != "&quot;" by {
        assert t[1] == '#';
      }
    } else {
      assert e == [c] && t[0] == c && t[1..] == rest && c != '&';
      assert |t| >= 4 ==> t[..4][0] == c;
      assert |t| >= 5 ==> t[..5][0] == c;
      assert |t| >= 6 ==> t[..6][0] == c;
    }
  }

  /** The escaping loses nothing: decoding the entities restores the input. */
  lemma {:induction false} EscapeRoundTrip(s: string)
    ensures Unescape(EscapeAll(s)) == s
    decreases |s|
  {
    if s != [] {
      UnescapeStep(s[0], EscapeAll(s[1..]));
      EscapeRoundTrip(s[1..]);
      assert s == [s[0]] + s[1..];
    }
  }

  // ---------------------------------------------------------------------------
  // validateRequest (validate.js:14-33).

  /** An entry of express-validator's `errors.array()`. */
  datatype ValidatorError = ValidatorError(path: string, msg: string)

  /** What the middleware does: answer the request itself, or call `next()` and send nothing. */
  datatype Outcome = Respond(response: Errors.HttpResponse) | Next

  const InvalidInputMessage: string := "Datos de entrada inválidos"

  function ToDetails(errors: seq<ValidatorError>): (ds: seq<Errors.FieldDetail>)
    ensures |ds| == |errors|
    ensures forall i :: 0 <= i < |errors| ==> ds[i] == Errors.FieldDetail(errors[i].path, errors[i].msg)
  {
    seq(|errors|, i requires 0 <= i < |errors| => Errors.FieldDetail(errors[i].path, errors[i].msg))
  }

  /**
   * With errors, a 400 VALIDATION_ERROR answer carrying one `{field, message}`
   * per error in the same order, and no `next()`; without errors, `next()`.
   */
  function ValidateRequest(errors: seq<ValidatorError>): (o: Outcome)
    ensures errors == [] <==> o.Next?
    ensures o.Respond? ==>
      && o.response.status == 400
      && o.response.body.error == InvalidInputMessage
      && o.response.body.code == "VALIDATION_ERROR"
      && o.response.body.details.Some?
      && |o.response.body.details.value| == |errors|
      && (forall i :: 0 <= i < |errors| ==>
            o.response.body.details.value[i].field == errors[i].path &&
            o.response.body.details.value[i].message == errors[i].msg)
      && o.response.body.debug == None
  {
    if errors != [] then
      Respond(Errors.HttpResponse(400, Errors.ErrorBody(InvalidInputMessage, "VALIDATION_ERROR",
                                                        Some(ToDetails(errors)), None)))
    else Next
  }

  /**
   * The middleware's own answer is the one the error handler gives for a
   * ValidationError with the same message and details, in any environment.
   */
  lemma {:induction false} ValidateRequestMatchesErrorHandler(errors: seq<ValidatorError>, development: bool)
    requires errors != []
    ensures ValidateRequest(errors).response
      == Errors.ErrorHandler(Errors.ValidationError(InvalidInputMessage, Some(ToDetails(errors))), development)
  {
  }
}
