/**
 * The subscriber-name validator of src/domain/subscriber_name.rs: `SubscriberName::parse`,
 * which returns `Result<SubscriberName, String>`, and its `AsRef<str>` accessor.
 *
 * Grapheme segmentation comes from the `unicode_segmentation` crate and is not reimplemented:
 * `Parse` receives the segmentation of its input as a parameter, constrained only by what
 * every segmentation satisfies (its non-empty parts concatenate back to the input).
 */
module SubscriberNames {
  import opened Wrappers

  /** `char::is_whitespace`: the characters with the Unicode White_Space property. */
  predicate IsWhitespace(c: char) {
    || ('\t' <= c <= '\r')
    || c == ' '
    || c == '\U{0085}'
    || c == '\U{00A0}'
    || c == '\U{1680}'
    || ('\U{2000}' <= c <= '\U{200A}')
    || c == '\U{2028}'
    || c == '\U{2029}'
    || c == '\U{202F}'
    || c == '\U{205F}'
    || c == '\U{3000}'
  }

  predicate AllWhitespace(s: string) {
    forall i :: 0 <= i < |s| ==> IsWhitespace(s[i])
  }

  /** `str::trim_start`: drops the longest all-whitespace prefix. */
  function TrimStart(s: string): (r: string)
    ensures |r| <= |s| && r == s[|s| - |r|..]
    ensures AllWhitespace(s[..|s| - |r|])
    ensures r == [] || !IsWhitespace(r[0])
  {
    if s != [] && IsWhitespace(s[0]) then TrimStart(s[1..]) else s
  }

  /** `str::trim_end`: drops the longest all-whitespace suffix. */
  function TrimEnd(s: string): (r: string)
    ensures |r| <= |s| && r == s[..|r|]
    ensures AllWhitespace(s[|r|..])
    ensures r == [] || !IsWhitespace(r[|r| - 1])
  {
    if s != [] && IsWhitespace(s[|s| - 1]) then TrimEnd(s[..|s| - 1]) else s
  }

  /** `str::trim`. */
  function Trim(s: string): string {
    TrimEnd(TrimStart(s))
  }

  /** The characters `parse` refuses anywhere in a name. */
  const ForbiddenCharacters: seq<char> := ['/', '(', ')', '"', '<', '>', '\\', '{', '}']

  /** The largest number of graphemes a name may have. */
  const MaxGraphemes: nat := 256

  /** The concatenation of a sequence of strings. */
  function Concat(parts: seq<string>): string {
    if parts == [] then [] else Concat(parts[..|parts| - 1]) + parts[|parts| - 1]
  }

  /** What every result of `s.graphemes(true)` satisfies: non-empty clusters that spell `s`. */
  predicate IsGraphemeSegmentation(s: string, graphemes: seq<string>) {
    && Concat(graphemes) == s
    && forall i :: 0 <= i < |graphemes| ==> graphemes[i] != []
  }

  predicate IsEmptyOrWhitespace(s: string) {
    Trim(s) == []
  }

  predicate IsTooLong(graphemes: seq<string>) {
    |graphemes| > MaxGraphemes
  }

  predicate ContainsForbiddenCharacters(s: string) {
    exists i :: 0 <= i < |s| && s[i] in ForbiddenCharacters
  }

  /** The validity predicate every `SubscriberName` in circulation satisfies. */
  predicate IsValidName(s: string, graphemes: seq<string>) {
    !IsEmptyOrWhitespace(s) && !IsTooLong(graphemes) && !ContainsForbiddenCharacters(s)
  }

  /** The message of a rejection. */
  function InvalidNameMessage(s: string): string {
    s + " is not a valid subscriber name."
  }

  /** The newtype. Its ghost part is the segmentation the name was checked against. */
  datatype SubscriberName = SubscriberName(value: string, ghost graphemes: seq<string>) {
    /** The invariant `Parse` establishes: the wrapped string is a valid name. */
    ghost predicate Valid() {
      IsGraphemeSegmentation(value, graphemes) && IsValidName(value, graphemes)
    }

    /** Read-only access to the wrapped string, which therefore cannot break the invariant:
        the string handed out is never blank, never too long and free of forbidden characters. */
    function AsRef(): (r: string)
      requires Valid()
      ensures SubscriberName(r, graphemes) == this
      ensures !IsEmptyOrWhitespace(r) && !ContainsForbiddenCharacters(r)
      ensures IsGraphemeSegmentation(r, graphemes) && !IsTooLong(graphemes)
    {
      value
    }
  }

  /** The names in circulation: every one of them satisfies `Valid()`. */
  type ValidSubscriberName = n: SubscriberName | n.Valid() witness OneLetterName()

  /** A one-letter name, which is valid. */
  function OneLetterName(): (n: SubscriberName)
    ensures n.Valid()
  {
    OneLetterNameIsValid('a');
    SubscriberName(['a'], [['a']])
  }

  /** A single character that is neither whitespace nor forbidden is a valid name. */
  lemma OneLetterNameIsValid(c: char)
    requires !IsWhitespace(c) && c !in ForbiddenCharacters
    ensures IsGraphemeSegmentation([c], [[c]]) && IsValidName([c], [[c]])
  {
    assert Concat([[c]]) == [c] by {
      assert [[c]][..0] == [];
    }
    assert !IsEmptyOrWhitespace([c]) by {
      TrimEmptyIffAllWhitespace([c]);
      assert !AllWhitespace([c]) by {
        assert [c][0] == c;
      }
    }
    assert !ContainsForbiddenCharacters([c]) by {
      assert forall i :: 0 <= i < |[c]| ==> [c][i] == c;
    }
  }


  /** `SubscriberName::parse`. */
  function Parse(s: string, graphemes: seq<string>): (r: Result<ValidSubscriberName, string>)
    requires IsGraphemeSegmentation(s, graphemes)
    ensures r.Ok? ==> r.value.AsRef() == s && IsValidName(s, graphemes)
    ensures r.Err? ==> r.error == InvalidNameMessage(s) && !IsValidName(s, graphemes)
  {
    var isEmptyOrWhitespace := IsEmptyOrWhitespace(s);
    var isTooLong := IsTooLong(graphemes);
    var containsForbiddenCharacters := ContainsForbiddenCharacters(s);
    if isEmptyOrWhitespace || isTooLong || containsForbiddenCharacters then
      Err(InvalidNameMessage(s))
    else
      Ok(SubscriberName(s, graphemes))
  }

  // ---------------------------------------------------------------------------------------------
  // Trimming

  /** `s.trim().is_empty()` holds exactly when every character of `s` is whitespace. */
  lemma TrimEmptyIffAllWhitespace(s: string)
    ensures Trim(s) == [] <==> AllWhitespace(s)
  {
  }

  // ---------------------------------------------------------------------------------------------
  // Graphemes

  /** A segmentation has no more clusters than its text has characters. */
  lemma {:induction false} GraphemeCountAtMostLength(s: string, graphemes: seq<string>)
    requires IsGraphemeSegmentation(s, graphemes)
    ensures |graphemes| <= |s|
    ensures s != [] ==> |graphemes| >= 1
    decreases |graphemes|
  {
    if graphemes != [] {
      var init := graphemes[..|graphemes| - 1];
      assert IsGraphemeSegmentation(Concat(init), init) by {
        forall i | 0 <= i < |init| ensures init[i] != [] {
          assert init[i] == graphemes[i];
        }
      }
      GraphemeCountAtMostLength(Concat(init), init);
    }
  }

  /** A name of at most 256 characters is never rejected for its length. */
  lemma ShortNamesAreNeverTooLong(s: string, graphemes: seq<string>)
    requires IsGraphemeSegmentation(s, graphemes)
    requires |s| <= MaxGraphemes
    ensures !IsTooLong(graphemes)
  {
    GraphemeCountAtMostLength(s, graphemes);
  }

  /** Each character its own cluster: the segmentation of text without combining sequences. */
  function Singletons(s: string): (graphemes: seq<string>)
    ensures IsGraphemeSegmentation(s, graphemes) && |graphemes| == |s|
  {
    if s == [] then []
    else
      var init := Singletons(s[..|s| - 1]);
      assert s == s[..|s| - 1] + [s[|s| - 1]];
      init + [[s[|s| - 1]]]
  }

  // ---------------------------------------------------------------------------------------------
  // Parse

  /** Blank input (empty, or whitespace only) is rejected. */
  lemma ParseRejectsBlank(s: string, graphemes: seq<string>)
    requires IsGraphemeSegmentation(s, graphemes)
    requires AllWhitespace(s)
    ensures Parse(s, graphemes) == Err(InvalidNameMessage(s))
  {
  }

  /** More than 256 graphemes is rejected; exactly 256 passes the length rule. */
  lemma ParseLengthBoundary(s: string, graphemes: seq<string>)
    requires IsGraphemeSegmentation(s, graphemes)
    ensures |graphemes| > 256 ==> Parse(s, graphemes).Err?
    ensures |graphemes| == 256 && !AllWhitespace(s) && !ContainsForbiddenCharacters(s) ==>
              Parse(s, graphemes) == Ok(SubscriberName(s, graphemes))
  {
  }

  /** Any one forbidden character anywhere in the input makes it rejected. */
  lemma ParseRejectsForbidden(s: string, graphemes: seq<string>, i: nat)
    requires IsGraphemeSegmentation(s, graphemes)
    requires i < |s| && s[i] in ForbiddenCharacters
    ensures Parse(s, graphemes) == Err(InvalidNameMessage(s))
  {
  }

  /** Parse accepts exactly the names that are not blank, not too long and free of forbidden
      characters; on success it wraps the input unchanged and `AsRef` hands exactly it back; on
      failure the message names the input. */
  lemma ParseAcceptsIffValid(s: string, graphemes: seq<string>)
    requires IsGraphemeSegmentation(s, graphemes)
    ensures Parse(s, graphemes).Ok? <==>
              !AllWhitespace(s) && |graphemes| <= 256 &&
              forall i :: 0 <= i < |s| ==> s[i] !in ForbiddenCharacters
    ensures Parse(s, graphemes).Ok? ==>
              Parse(s, graphemes).value.AsRef() == s && IsValidName(s, graphemes)
    ensures Parse(s, graphemes).Err? ==>
              Parse(s, graphemes).error == s + " is not a valid subscriber name."
  {
  }

  /** The verdicts of the module's unit tests on 256 and 257 graphemes. */
  lemma LengthTestVerdicts()
    ensures var s := seq(256, _ => '\U{00EB}'); Parse(s, Singletons(s)).Ok?
    ensures var s := seq(257, _ => 'a'); Parse(s, Singletons(s)).Err?
  {
    var e := seq(256, _ => '\U{00EB}');
    assert !IsWhitespace(e[0]);
    TrimEmptyIffAllWhitespace(e);
  }

  /** The verdicts of the module's unit tests on blank names. */
  lemma BlankTestVerdicts()
    ensures Parse(" ", Singletons(" ")).Err?
    ensures Parse("", Singletons("")).Err?
  {
    ParseRejectsBlank(" ", Singletons(" "));
    ParseRejectsBlank("", Singletons(""));
  }

  /** The verdict of the module's unit test on each forbidden character alone. */
  lemma ForbiddenTestVerdicts()
    ensures forall c :: c in ForbiddenCharacters ==> Parse([c], Singletons([c])).Err?
  {
    forall c | c in ForbiddenCharacters ensures Parse([c], Singletons([c])).Err? {
      ParseRejectsForbidden([c], Singletons([c]), 0);
    }
  }

  /** The verdict of the module's unit test on an ordinary name. */
  lemma OrdinaryNameTestVerdict()
    ensures Parse("Ursula Le Guin", Singletons("Ursula Le Guin")).Ok?
  {
    var u := "Ursula Le Guin";
    assert !IsWhitespace(u[0]);
    TrimEmptyIffAllWhitespace(u);
    forall i | 0 <= i < |u| ensures u[i] !in ForbiddenCharacters {
      assert u[i] == ' ' || 'A' <= u[i] <= 'Z' || 'a' <= u[i] <= 'z';
    }
  }
}
