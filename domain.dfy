/**
 * The older copy of the subscriber-name validator in src/domain.rs: the same three rules, but
 * `SubscriberName::parse` panics instead of returning an error. A panic is modelled as an
 * outcome that carries the panic message, so the two copies can be compared call by call.
 */
module Domain {
  import SN = SubscriberNames

  /** The newtype of src/domain.rs. Its ghost part is the segmentation the name was checked
      against. */
  datatype SubscriberName = SubscriberName(value: string, ghost graphemes: seq<string>) {
    /** The invariant `Parse` establishes: the wrapped string is a valid name. */
    ghost predicate Valid() {
      SN.IsGraphemeSegmentation(value, graphemes) && SN.IsValidName(value, graphemes)
    }

    /** Read-only access to the wrapped string, which therefore cannot break the invariant:
        the string handed out is never blank, never too long and free of forbidden characters. */
    function AsRef(): (r: string)
      requires Valid()
      ensures SubscriberName(r, graphemes) == this
      ensures !SN.IsEmptyOrWhitespace(r) && !SN.ContainsForbiddenCharacters(r)
      ensures SN.IsGraphemeSegmentation(r, graphemes) && !SN.IsTooLong(graphemes)
    {
      value
    }
  }

  /** The names in circulation: every one of them satisfies `Valid()`. */
  type ValidSubscriberName = n: SubscriberName | n.Valid() witness OneLetterName()

  /** A one-letter name, which is valid. */
  function OneLetterName(): (n: SubscriberName)
    ensures n.Valid()
  {
    SN.OneLetterNameIsValid('a');
    SubscriberName(['a'], [['a']])
  }

  /** How a call of the panicking `parse` ends. */
  datatype ParseOutcome = Returned(name: ValidSubscriberName) | Panicked(message: string)

  /** `SubscriberName::parse`, panicking variant. */
  function Parse(s: string, graphemes: seq<string>): (r: ParseOutcome)
    requires SN.IsGraphemeSegmentation(s, graphemes)
    ensures r.Returned? ==> r.name.AsRef() == s && SN.IsValidName(s, graphemes)
    ensures r.Panicked? ==> r.message == SN.InvalidNameMessage(s) && !SN.IsValidName(s, graphemes)
  {
    var isEmptyOrWhitespace := SN.IsEmptyOrWhitespace(s);
    var isTooLong := SN.IsTooLong(graphemes);
    var containsForbiddenCharacters := SN.ContainsForbiddenCharacters(s);
    if isEmptyOrWhitespace || isTooLong || containsForbiddenCharacters then
      Panicked(SN.InvalidNameMessage(s))
    else
      Returned(SubscriberName(s, graphemes))
  }

  /** The call panics on blank input, on more than 256 graphemes and on any forbidden
      character, and on nothing else. */
  lemma PanicsExactlyOnInvalidInput(s: string, graphemes: seq<string>)
    requires SN.IsGraphemeSegmentation(s, graphemes)
    ensures Parse(s, graphemes).Panicked? <==>
              || SN.AllWhitespace(s)
              || |graphemes| > 256
              || exists i :: 0 <= i < |s| && s[i] in SN.ForbiddenCharacters
    ensures Parse(s, graphemes).Panicked? ==>
              Parse(s, graphemes).message == s + " is not a valid subscriber name."
  {
  }

  /** A returned name wraps the input unchanged, `AsRef` gives exactly it back, and it satisfies
      the validity predicate: every name in circulation is valid. */
  lemma ReturnedNameIsInputAndValid(s: string, graphemes: seq<string>)
    requires SN.IsGraphemeSegmentation(s, graphemes)
    ensures Parse(s, graphemes).Returned? ==>
              Parse(s, graphemes).name.AsRef() == s && SN.IsValidName(s, graphemes)
    ensures !SN.AllWhitespace(s) && !SN.IsTooLong(graphemes) && !SN.ContainsForbiddenCharacters(s) ==>
              Parse(s, graphemes) == Returned(SubscriberName(s, graphemes))
  {
  }

  /** The two copies agree: this one returns exactly where the `Result` one succeeds, with the
      same string, and panics with the message the other returns as its error. */
  lemma AgreesWithResultParse(s: string, graphemes: seq<string>)
    requires SN.IsGraphemeSegmentation(s, graphemes)
    ensures Parse(s, graphemes).Returned? <==> SN.Parse(s, graphemes).Ok?
    ensures Parse(s, graphemes).Returned? ==>
              Parse(s, graphemes).name.AsRef() == SN.Parse(s, graphemes).value.AsRef()
    ensures Parse(s, graphemes).Panicked? ==>
              Parse(s, graphemes).message == SN.Parse(s, graphemes).error
  {
  }
}
