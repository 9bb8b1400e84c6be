/**
 * The subscription sign-up form (`SubscriptionForm`): it binds the four
 * fields of a posted form, demands an email address, and refuses a sign-up
 * that picks none of the three blogs.
 */
module Forms {
  import opened Wrappers
  import Text

  /** The fields the form declares, in order; every other posted key is ignored. */
  const Fields: seq<string> := ["email", "tech", "life", "spirit"]

  const NoTopicMessage: string := "Please select at least one blog category to subscribe to."

  /** A valid sign-up: the address and the three topic flags. */
  datatype Subscription = Subscription(email: string, tech: bool, life: bool, spirit: bool)

  datatype FormError =
    | EmailRequired
    | NoTopic(message: string)

  /** What a posted form holds: field name to submitted text. */
  type Posted = map<string, string>

  /** The text posted for `name`, or empty when the field is missing. */
  function Value(post: Posted, name: string): string {
    if name in post then post[name] else ""
  }

  /** ASCII lower case; no other character lower-cases to a letter of `false`. */
  function LowerAscii(c: char): char {
    if 'A' <= c <= 'Z' then (c as int + 32) as char else c
  }

  /** `v.lower() == "false"`. */
  predicate IsFalseWord(v: string) {
    |v| == 5 && forall i :: 0 <= i < 5 ==> LowerAscii(v[i]) == "false"[i]
  }

  /** A checkbox is ticked when it is posted with a value other than empty or `false` in any letter case. */
  predicate Ticked(post: Posted, name: string) {
    name in post && post[name] != "" && !IsFalseWord(post[name])
  }

  /** The email as the field cleans it: surrounding white space removed. */
  function Email(post: Posted): string {
    Text.Strip(Value(post, "email"))
  }

  /** The error list of a bound form: field errors first, then the error `clean` raises. */
  function Errors(post: Posted): (r: seq<FormError>)
    ensures EmailRequired in r <==> Email(post) == ""
    ensures NoTopic(NoTopicMessage) in r <==> !(Ticked(post, "tech") || Ticked(post, "life") || Ticked(post, "spirit"))
    ensures forall e :: e in r ==> e == EmailRequired || e == NoTopic(NoTopicMessage)
  {
    (if Email(post) == "" then [EmailRequired] else [])
    + if !(Ticked(post, "tech") || Ticked(post, "life") || Ticked(post, "spirit")) then [NoTopic(NoTopicMessage)] else []
  }

  /** Binding and cleaning: the cleaned data when there is no error, the errors otherwise. */
  function Clean(post: Posted): Result<Subscription, seq<FormError>> {
    var errors := Errors(post);
    if errors == [] then
      Success(Subscription(Email(post), Ticked(post, "tech"), Ticked(post, "life"), Ticked(post, "spirit")))
    else
      Failure(errors)
  }

  // ----- Properties -----

  /** The form is refused exactly when the email is blank or no blog is picked. */
  lemma CleanFailsIff(post: Posted)
    ensures Clean(post).Failure? <==>
      Email(post) == "" || !(Ticked(post, "tech") || Ticked(post, "life") || Ticked(post, "spirit"))
  {
    if Email(post) == "" {
      assert EmailRequired in Errors(post);
    }
    if !(Ticked(post, "tech") || Ticked(post, "life") || Ticked(post, "spirit")) {
      assert NoTopic(NoTopicMessage) in Errors(post);
    }
  }

  /** An accepted form passes the posted values through unchanged and always carries an email and a blog. */
  lemma CleanKeepsData(post: Posted)
    requires Clean(post).Success?
    ensures Clean(post).value.email == Email(post) != ""
    ensures Clean(post).value.tech == Ticked(post, "tech")
    ensures Clean(post).value.life == Ticked(post, "life")
    ensures Clean(post).value.spirit == Ticked(post, "spirit")
    ensures Clean(post).value.tech || Clean(post).value.life || Clean(post).value.spirit
  {
    CleanFailsIff(post);
  }

  /** A form without an email is refused with the required-field error, whatever the boxes say. */
  lemma EmailIsRequired(post: Posted)
    requires "email" !in post || Text.AllSpace(post["email"])
    ensures Clean(post).Failure? && EmailRequired in Clean(post).error
  {
  }

  /** A box posted as `false`, in whatever letter case, is not ticked; any other non-empty value is. */
  lemma FalseInAnyCase(post: Posted, name: string)
    requires name in post && post[name] in ["false", "False", "FALSE"]
    ensures !Ticked(post, name)
  {
    assert IsFalseWord(post[name]);
  }

  /** Keys outside the four declared fields make no difference. */
  lemma OnlyDeclaredFields(post: Posted)
    ensures Clean(post) == Clean(map k | k in post && k in Fields :: post[k])
  {
    var kept := map k | k in post && k in Fields :: post[k];
    assert "email" in Fields && "tech" in Fields && "life" in Fields && "spirit" in Fields;
    assert Value(kept, "email") == Value(post, "email");
    assert Ticked(kept, "tech") == Ticked(post, "tech");
    assert Ticked(kept, "life") == Ticked(post, "life");
    assert Ticked(kept, "spirit") == Ticked(post, "spirit");
  }
}
