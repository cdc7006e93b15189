/**
 * The redaction step of logger.js (`filterSensitive`): before a log entry is
 * formatted, a message that is an object has every sensitive field with a
 * truthy value replaced by '[REDACTED]'. Values are immutable here, so the
 * shallow copy the source takes is the new map the loop builds.
 */
module Logger {
  import opened Common

  const SensitiveFields: seq<string> := ["password", "password_hash", "secret", "token", "authorization"]
  const Redacted: string := "[REDACTED]"

  predicate IsSensitive(key: string)
  {
    key in SensitiveFields
  }

  /** The specification: one field of the copy. */
  function RedactField(key: string, v: Value): (r: Value)
    ensures IsSensitive(key) && Truthy(v) ==> r == Str(Redacted)
    ensures !(IsSensitive(key) && Truthy(v)) ==> r == v
  {
    if IsSensitive(key) && Truthy(v) then Str(Redacted) else v
  }

  /**
   * The specification of the whole step. `typeof null === 'object'`, so a
   * null message becomes an empty object (`{ ...null }` is `{}`).
   */
  function Redact(message: Value): (r: Value)
    ensures IsObjectType(message) <==> r.Obj?
    ensures message.Obj? ==> r.fields.Keys == message.fields.Keys
    ensures message.Null? ==> r == Obj(map[])
    ensures !IsObjectType(message) ==> r == message
  {
    match message
    case Obj(fields) => Obj(map k | k in fields :: RedactField(k, fields[k]))
    case Null => Obj(map[])
    case _ => message
  }

  /** A log entry as winston passes it to a format. */
  class LogInfo {
    var level: string
    var message: Value

    constructor (level: string, message: Value)
      ensures this.level == level && this.message == message
    {
      this.level := level;
      this.message := message;
    }

    /** `filterSensitive`: copy the message, overwrite the truthy sensitive fields, store the copy. */
    method FilterSensitive()
      modifies this
      ensures message == Redact(old(message))
      ensures level == old(level)
    {
      if IsObjectType(message) {
        var filtered: map<string, Value> := if message.Obj? then message.fields else map[];
        ghost var original := filtered;
        for i := 0 to |SensitiveFields|
          invariant filtered.Keys == original.Keys
          invariant forall k :: k in original ==>
            filtered[k] == (if k in SensitiveFields[..i] && Truthy(original[k]) then Str(Redacted) else original[k])
        {
          var field := SensitiveFields[i];
          if field in filtered && Truthy(filtered[field]) {
            filtered := filtered[field := Str(Redacted)];
          }
        }
        assert SensitiveFields[..|SensitiveFields|] == SensitiveFields;
        message := Obj(filtered);
      }
    }
  }

  /** A message that is not an object (nor null) passes through unchanged. */
  lemma {:induction false} NonObjectsPassThrough(message: Value)
    requires !IsObjectType(message)
    ensures Redact(message) == message
  {
  }

  /**
   * An object keeps its key set; a sensitive field with a truthy value reads
   * '[REDACTED]'; every other field (non-sensitive, or sensitive but falsy)
   * keeps its value.
   */
  lemma {:induction false} RedactionFieldByField(fields: map<string, Value>)
    ensures Redact(Obj(fields)).Obj?
    ensures Redact(Obj(fields)).fields.Keys == fields.Keys
    ensures forall k :: k in fields && IsSensitive(k) && Truthy(fields[k]) ==>
      Redact(Obj(fields)).fields[k] == Str(Redacted)
    ensures forall k :: k in fields && !(IsSensitive(k) && Truthy(fields[k])) ==>
      Redact(Obj(fields)).fields[k] == fields[k]
  {
  }

  /** No sensitive field of a redacted object holds anything but '[REDACTED]' or a falsy value. */
  lemma {:induction false} NothingSensitiveSurvives(message: Value)
    ensures var r := Redact(message);
      r.Obj? ==> forall k :: k in r.fields && IsSensitive(k) ==> !Truthy(r.fields[k]) || r.fields[k] == Str(Redacted)
  {
  }

  /** Redacting twice is redacting once, since '[REDACTED]' is itself truthy. */
  lemma {:induction false} RedactIdempotent(message: Value)
    ensures Redact(Redact(message)) == Redact(message)
  {
    match message
    case Obj(fields) =>
      var once := map k | k in fields :: RedactField(k, fields[k]);
      var twice := map k | k in once :: RedactField(k, once[k]);
      assert Truthy(Str(Redacted));
      assert twice == once;
    case Null =>
      assert Redact(Obj(map[])) == Obj(map[]);
    case _ =>
  }
}
