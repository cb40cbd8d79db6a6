/**
 * The anomaly classifier run on every decrypted plaintext: a JSON-parse guard
 * followed by three rules over the `name` and `gpa` members.
 *
 * Its input is the abstract result of `json.loads` (None when the text is not
 * JSON). Besides true and false the Python function can also raise: `.get` on
 * a parsed value that is not an object, `.lower()` on a name that is not a
 * string and `<=` between a float and a gpa that is not a number all throw,
 * and nothing catches them. That third outcome is `Raises`.
 */
module AnomalyDetector {
  import opened Wrappers
  import opened Json
  import opened Text

  datatype Verdict = Anomalous | Normal | Raises

  /** Rule 1: SQL injection-like fragments. */
  const SqlTerms: seq<string> := ["drop table", "delete *", "insert into", "select * from"]

  /** Rule 3: suspicious words. */
  const SuspiciousWords: seq<string> := ["hack", "attack"]

  /** The closed interval a GPA must lie in. */
  predicate GpaInRange(gpa: real)
  {
    0.0 <= gpa <= 4.0
  }

  /** The name member, folded, defaulting to ""; None when it is not a string. */
  function FoldedName(members: map<string, Value>): Option<string>
  {
    match Get(members, "name", JString(""))
    case JString(s) => Some(Lower(s))
    case _ => None
  }

  /**
   * The gpa member as a number, defaulting to 0; None when Python's ordering
   * comparison with a float would raise. A JSON boolean compares as 0 or 1.
   */
  function GpaNumber(members: map<string, Value>): Option<real>
  {
    match Get(members, "gpa", JNumber(0.0))
    case JNumber(x) => Some(x)
    case JBool(b) => Some(if b then 1.0 else 0.0)
    case _ => None
  }

  /**
   * `is_anomalous(student_json)` over the parse result of `student_json`.
   * Text that is not JSON is anomalous; an exception is raised only for a
   * parsed document that is not an object or whose name or gpa has the wrong
   * type; and Normal is only ever given to an object with a numeric gpa in
   * [0.0, 4.0] (NormalIff gives the full characterisation).
   */
  function IsAnomalous(parsed: Option<Value>): (v: Verdict)
    ensures parsed.None? ==> v == Anomalous
    ensures v == Raises ==>
      parsed.Some? &&
      (!parsed.value.JObject? || FoldedName(parsed.value.members).None? || GpaNumber(parsed.value.members).None?)
    ensures v == Normal ==>
      parsed.Some? && parsed.value.JObject? &&
      GpaNumber(parsed.value.members).Some? && GpaInRange(GpaNumber(parsed.value.members).value)
  {
    match parsed
    case None => Anomalous
    case Some(data) =>
      if !data.JObject? then Raises
      else match FoldedName(data.members)
        case None => Raises
        case Some(name) =>
          if ContainsAny(name, SqlTerms) then Anomalous
          else match GpaNumber(data.members)
            case None => Raises
            case Some(gpa) =>
              if !GpaInRange(gpa) then Anomalous
              else if Contains(name, "hack") || Contains(name, "attack") then Anomalous
              else Normal
  }

  /**
   * Reference statement of "nothing suspicious" for a folded name and a gpa,
   * phrased with windows of the name rather than with the search.
   */
  ghost predicate Clean(name: string, gpa: real)
  {
    && (forall k :: 0 <= k < |SqlTerms| ==> !Occurs(SqlTerms[k], name))
    && GpaInRange(gpa)
    && (forall k :: 0 <= k < |SuspiciousWords| ==> !Occurs(SuspiciousWords[k], name))
  }

  /**
   * The full characterisation: the classifier answers Normal exactly when the
   * text parsed to an object whose name (default "") is a string and whose gpa
   * (default 0) is a number, and no rule fires.
   */
  lemma NormalIff(parsed: Option<Value>)
    ensures IsAnomalous(parsed) == Normal <==>
      && parsed.Some? && parsed.value.JObject?
      && FoldedName(parsed.value.members).Some?
      && GpaNumber(parsed.value.members).Some?
      && Clean(FoldedName(parsed.value.members).value, GpaNumber(parsed.value.members).value)
  {
    assert SuspiciousWords[0] == "hack" && SuspiciousWords[1] == "attack";
  }

  /**
   * Rule 1 wins whatever the gpa is, even a gpa that could not be compared:
   * a folded name containing an SQL term is anomalous.
   */
  lemma SqlTermIsAnomalous(members: map<string, Value>, name: string, k: int)
    requires Get(members, "name", JString("")) == JString(name)
    requires 0 <= k < |SqlTerms| && Occurs(SqlTerms[k], Lower(name))
    ensures IsAnomalous(Some(JObject(members))) == Anomalous
  {
  }

  /** Rule 3: a folded name containing "hack" or "attack" is anomalous. */
  lemma SuspiciousWordIsAnomalous(members: map<string, Value>, name: string, k: int)
    requires Get(members, "name", JString("")) == JString(name)
    requires GpaNumber(members).Some?
    requires 0 <= k < |SuspiciousWords| && Occurs(SuspiciousWords[k], Lower(name))
    ensures IsAnomalous(Some(JObject(members))) == Anomalous
  {
  }

  /**
   * Rule 2 is a closed interval: a numeric gpa outside [0.0, 4.0] is flagged
   * (when rule 1 has not already fired), while 0.0 and 4.0 themselves leave
   * the verdict to rule 3.
   */
  lemma GpaRule(members: map<string, Value>, name: string)
    requires Get(members, "name", JString("")) == JString(name)
    requires !ContainsAny(Lower(name), SqlTerms)
    ensures forall g: real :: !GpaInRange(g) ==>
      IsAnomalous(Some(JObject(members["gpa" := JNumber(g)]))) == Anomalous
    ensures IsAnomalous(Some(JObject(members["gpa" := JNumber(0.0)]))) == Normal
      <==> !Contains(Lower(name), "hack") && !Contains(Lower(name), "attack")
    ensures IsAnomalous(Some(JObject(members["gpa" := JNumber(4.0)]))) == Normal
      <==> !Contains(Lower(name), "hack") && !Contains(Lower(name), "attack")
  {
  }

  /** Missing members take the defaults "" and 0, and neither fires a rule. */
  lemma DefaultsAreNormal(members: map<string, Value>)
    requires "name" !in members && "gpa" !in members
    ensures IsAnomalous(Some(JObject(members))) == Normal
  {
    assert Lower("") == "";
    assert !ContainsAny("", SqlTerms);
  }

  /** Only the name and gpa members matter; all others are ignored. */
  lemma OnlyNameAndGpaMatter(m1: map<string, Value>, m2: map<string, Value>)
    requires Get(m1, "name", JString("")) == Get(m2, "name", JString(""))
    requires Get(m1, "gpa", JNumber(0.0)) == Get(m2, "gpa", JNumber(0.0))
    ensures IsAnomalous(Some(JObject(m1))) == IsAnomalous(Some(JObject(m2)))
  {
  }

  /** Matching is case-insensitive: names equal up to ASCII case get the same verdict. */
  lemma CaseInsensitive(members: map<string, Value>, name1: string, name2: string)
    requires EqualIgnoringCase(name1, name2)
    ensures IsAnomalous(Some(JObject(members["name" := JString(name1)])))
         == IsAnomalous(Some(JObject(members["name" := JString(name2)])))
  {
    LowerIdentifiesCase(name1, name2);
  }

  /** "DROP TABLE students" is flagged through case folding. */
  lemma DropTableIsAnomalous()
    ensures IsAnomalous(Some(JObject(map["id" := JNumber(2.0), "name" := JString("DROP TABLE students"), "gpa" := JNumber(2.0)]))) == Anomalous
  {
    var name := "DROP TABLE students";
    assert MatchesAt(SqlTerms[0], Lower(name), 0);
    SqlTermIsAnomalous(map["id" := JNumber(2.0), "name" := JString(name), "gpa" := JNumber(2.0)], name, 0);
  }

  /** A gpa of 5.0 is flagged by the classifier, so it never reaches `Student`. */
  lemma GpaFiveIsAnomalous()
    ensures IsAnomalous(Some(JObject(map["id" := JNumber(3.0), "name" := JString("Ann"), "gpa" := JNumber(5.0)]))) == Anomalous
  {
  }
}
