/** The two field validators of the models: `Power.description` and
    `HeroPower.strength` are checked on every assignment, and a refused value
    raises an error instead of being stored. */
module Validators {
  import opened Wrappers

  /** What a refused assignment raises (a ValueError in the models). */
  datatype ValidationError = DescriptionTooShort | StrengthNotAllowed

  const MinDescriptionLength: nat := 20

  /** The only accepted strengths, compared exactly (case-sensitive). */
  const AllowedStrengths: seq<string> := ["Strong", "Weak", "Average"]

  predicate IsValidDescription(d: string) {
    |d| >= MinDescriptionLength
  }

  predicate IsValidStrength(s: string) {
    s in AllowedStrengths
  }

  /** The description validator: returns its argument or raises. */
  function ValidateDescription(d: string): (r: Result<string, ValidationError>)
    ensures r.Ok? <==> |d| >= 20
    ensures r.Ok? ==> r.value == d
    ensures r.Err? ==> r.error == DescriptionTooShort
  {
    if |d| < MinDescriptionLength then Err(DescriptionTooShort) else Ok(d)
  }

  /** The strength validator: returns its argument or raises. */
  function ValidateStrength(s: string): (r: Result<string, ValidationError>)
    ensures r.Ok? <==> s == "Strong" || s == "Weak" || s == "Average"
    ensures r.Ok? ==> r.value == s
    ensures r.Err? ==> r.error == StrengthNotAllowed
  {
    if s !in AllowedStrengths then Err(StrengthNotAllowed) else Ok(s)
  }

  /** The human-readable text carried by each error. */
  function Message(e: ValidationError): string {
    match e
    case DescriptionTooShort => "Description must be at least 20 characters long."
    case StrengthNotAllowed => "Strength must be one of: 'Strong', 'Weak', 'Average'"
  }

  /** `w` occurs inside `m` starting at position `i`. */
  predicate OccursAt(m: string, w: string, i: int) {
    0 <= i <= |m| - |w| && m[i..i + |w|] == w
  }

  /** `w` occurs somewhere inside `m`. */
  ghost predicate Mentions(m: string, w: string) {
    exists i :: OccursAt(m, w, i)
  }

  /** The description error names the minimum length. */
  lemma DescriptionMessageNamesMinimum()
    ensures Mentions(Message(DescriptionTooShort), "20")
  {
    var d, head := Message(DescriptionTooShort), "Description must be at least ";
    assert d == head + "20" + " characters long.";
    assert (head + "20" + " characters long.")[|head|..|head| + 2] == "20";
    assert OccursAt(d, "20", |head|);
  }

  /** The strength error lists every allowed strength, in quotes. */
  lemma StrengthMessageListsAllowed(a: string)
    requires a in AllowedStrengths
    ensures Mentions(Message(StrengthNotAllowed), "'" + a + "'")
  {
    var s, intro := Message(StrengthNotAllowed), "Strength must be one of: ";
    var strong, weak, average := "'Strong'", "'Weak'", "'Average'";
    var upToWeak := intro + strong + ", ";
    var upToAverage := upToWeak + weak + ", ";
    assert s == upToAverage + average;
    if a == "Strong" {
      assert "'" + a + "'" == strong;
      assert s == intro + strong + (", " + weak + ", " + average);
      assert (intro + strong + (", " + weak + ", " + average))[|intro|..|intro| + |strong|] == strong;
      assert OccursAt(s, strong, |intro|);
    } else if a == "Weak" {
      assert "'" + a + "'" == weak;
      assert s == upToWeak + weak + (", " + average);
      assert (upToWeak + weak + (", " + average))[|upToWeak|..|upToWeak| + |weak|] == weak;
      assert OccursAt(s, weak, |upToWeak|);
    } else {
      assert "'" + a + "'" == average;
      assert (upToAverage + average)[|upToAverage|..] == average;
      assert OccursAt(s, average, |upToAverage|);
    }
  }

  /** The strength match is exact: a different case, a trailing blank or an
      unknown name is refused. */
  lemma StrengthMatchIsExact()
    ensures ValidateStrength("strong").Err?
    ensures ValidateStrength("STRONG").Err?
    ensures ValidateStrength("Strong ").Err?
    ensures ValidateStrength("Mega").Err?
    ensures ValidateStrength("").Err?
  {
  }
}
