/**
 * The add-review screen: the form state (author, rating, comment and the
 * `submitting` flag), the validation and payload of handleSubmit, the
 * star widget and the length limits of the two text inputs.
 */
module AddReview {
  import opened Options
  import opened JsString

  /** maxLength of the "Your Name" input. */
  const MaxAuthorLength: nat := 50
  /** maxLength of the "Your Review" input. */
  const MaxCommentLength: nat := 500
  /** The star widget draws stars 1 to StarCount. */
  const StarCount: nat := 5

  /** The body posted to addReview. */
  datatype ReviewPayload = ReviewPayload(authorName: string, rating: int, comment: string)

  /** Why handleSubmit refused to send. */
  datatype SubmitError = MissingRating | MissingComment

  datatype Validation = Rejected(error: SubmitError) | Accepted(payload: ReviewPayload)

  /** An Alert.alert(title, message) shown to the user. */
  datatype Alert = Alert(title: string, message: string)

  /** How the addReview request ended. */
  datatype SendOutcome =
    | Responded(success: bool)  // the request completed; `success` is response.data.success
    | Threw                     // the request raised an error

  /** The alert of a failed check: titled "Error", with a message that
      names the check. */
  function ErrorAlert(e: SubmitError): (a: Alert)
    ensures a.title == "Error"
    ensures e.MissingRating? ==> a.message == "Please select a rating"
    ensures e.MissingComment? ==> a.message == "Please write a comment"
  {
    match e
    case MissingRating => Alert("Error", "Please select a rating")
    case MissingComment => Alert("Error", "Please write a comment")
  }

  /** What the user sees once the request has ended: a success alert, an
      error alert, or nothing when the server answered without success. */
  function OutcomeAlert(outcome: SendOutcome): (r: Option<Alert>)
    ensures r == None <==> outcome == Responded(false)
    ensures outcome == Responded(true) ==> r == Some(Alert("Success", "Review submitted successfully!"))
    ensures outcome == Threw ==> r == Some(Alert("Error", "Failed to submit review. Please try again."))
  {
    match outcome
    case Responded(success) =>
      if success then Some(Alert("Success", "Review submitted successfully!")) else None
    case Threw => Some(Alert("Error", "Failed to submit review. Please try again."))
  }

  /** `author.trim() || 'Anonymous'`: the trimmed name, or "Anonymous" when
      the name is blank; never empty and never padded. */
  function AuthorName(author: string): (name: string)
    ensures name != [] && IsTrimmed(name)
    ensures AllWhitespace(author) ==> name == "Anonymous"
    ensures !AllWhitespace(author) ==> name == Trim(author)
  {
    var t := Trim(author);
    if t != [] then t
    else
      VisibleNotWhitespace('A');
      VisibleNotWhitespace('s');
      "Anonymous"
  }

  /** The checks of handleSubmit, in their order, and the payload it builds
      when both pass. */
  function Validate(author: string, rating: int, comment: string): (v: Validation)
    ensures rating == 0 ==> v == Rejected(MissingRating)
    ensures rating != 0 && AllWhitespace(comment) ==> v == Rejected(MissingComment)
    ensures v.Accepted? <==> rating != 0 && !AllWhitespace(comment)
    ensures v.Accepted? ==> v.payload == ReviewPayload(AuthorName(author), rating, Trim(comment))
  {
    if rating == 0 then Rejected(MissingRating)
    else if Trim(comment) == [] then Rejected(MissingComment)
    else Accepted(ReviewPayload(AuthorName(author), rating, Trim(comment)))
  }

  /** An accepted payload has a non-empty, trimmed author and comment, and
      carries the rating unchanged; with the widget's ratings it is 1 to 5. */
  lemma AcceptedPayload(author: string, rating: int, comment: string)
    requires Validate(author, rating, comment).Accepted?
    ensures var p := Validate(author, rating, comment).payload;
      && p.authorName != [] && IsTrimmed(p.authorName)
      && p.comment != [] && IsTrimmed(p.comment)
      && p.rating == rating
      && (0 <= rating <= StarCount ==> 1 <= p.rating <= StarCount)
  {
  }

  /** Input that respects the two maxLength limits gives a payload within
      them too. */
  lemma PayloadBounds(author: string, rating: int, comment: string)
    requires |author| <= MaxAuthorLength && |comment| <= MaxCommentLength
    requires Validate(author, rating, comment).Accepted?
    ensures |Validate(author, rating, comment).payload.authorName| <= MaxAuthorLength
    ensures |Validate(author, rating, comment).payload.comment| <= MaxCommentLength
  {
  }

  /** Text after it passes a TextInput's maxLength: the first `max`
      characters. */
  function Clip(text: string, max: nat): (r: string)
    ensures |r| <= max && |r| <= |text| && r == text[..|r|]
    ensures |text| <= max ==> r == text
    ensures |text| > max ==> |r| == max
  {
    if |text| <= max then text else text[..max]
  }

  /** renderRatingStars: for i from 1 to 5, whether star i is drawn
      highlighted (`i <= rating`). */
  method RenderRatingStars(rating: int) returns (stars: seq<bool>)
    ensures |stars| == StarCount
    ensures forall k :: 0 <= k < StarCount ==> (stars[k] <==> k + 1 <= rating)
  {
    stars := [];
    var i := 1;
    while i <= StarCount
      invariant 1 <= i <= StarCount + 1
      invariant |stars| == i - 1
      invariant forall k :: 0 <= k < |stars| ==> (stars[k] <==> k + 1 <= rating)
    {
      stars := stars + [i <= rating];
      i := i + 1;
    }
  }

  /** The number of highlighted stars. */
  function CountHighlighted(stars: seq<bool>): (n: nat)
    ensures n <= |stars|
  {
    if stars == [] then 0
    else (if stars[|stars| - 1] then 1 else 0) + CountHighlighted(stars[..|stars| - 1])
  }

  /** Exactly `rating` stars are highlighted (none below 0, all five above 5). */
  lemma {:induction false} HighlightedStars(rating: int, stars: seq<bool>)
    requires forall k :: 0 <= k < |stars| ==> (stars[k] <==> k + 1 <= rating)
    ensures CountHighlighted(stars) == if rating < 0 then 0 else if rating > |stars| then |stars| else rating
  {
    if stars != [] {
      HighlightedStars(rating, stars[..|stars| - 1]);
    }
  }

  /** The state of the add-review screen for one movie. */
  class ReviewForm {
    const movieId: int
    var author: string
    var rating: int
    var comment: string
    var submitting: bool

    /** The inputs respect their limits and the rating is 0 (unset) or a star. */
    ghost predicate Valid()
      reads this
    {
      |author| <= MaxAuthorLength && |comment| <= MaxCommentLength && 0 <= rating <= StarCount
    }

    constructor (movieId: int)
      ensures Valid() && this.movieId == movieId
      ensures author == [] && rating == 0 && comment == [] && !submitting
    {
      this.movieId := movieId;
      author := [];
      rating := 0;
      comment := [];
      submitting := false;
    }

    /** Typing in the name input. */
    method SetAuthor(text: string)
      requires Valid()
      modifies this`author
      ensures Valid() && author == Clip(text, MaxAuthorLength)
    {
      author := Clip(text, MaxAuthorLength);
    }

    /** Typing in the review input. */
    method SetComment(text: string)
      requires Valid()
      modifies this`comment
      ensures Valid() && comment == Clip(text, MaxCommentLength)
    {
      comment := Clip(text, MaxCommentLength);
    }

    /** Tapping star `i` of the widget. */
    method PressStar(i: int)
      requires Valid() && 1 <= i <= StarCount
      modifies this`rating
      ensures Valid() && rating == i
    {
      rating := i;
    }

    /** handleSubmit up to the request: both checks, then the flag is
        raised and the payload goes out. The Submit button is disabled
        while a request is in flight, so this runs only with the flag down. */
    method BeginSubmit() returns (v: Validation, alert: Option<Alert>)
      requires Valid() && !submitting
      modifies this`submitting
      ensures Valid()
      ensures v == Validate(author, rating, comment)
      ensures submitting <==> v.Accepted?
      ensures alert == if v.Rejected? then Some(ErrorAlert(v.error)) else None
    {
      if rating == 0 {
        return Rejected(MissingRating), Some(ErrorAlert(MissingRating));
      }
      if Trim(comment) == [] {
        return Rejected(MissingComment), Some(ErrorAlert(MissingComment));
      }
      submitting := true;
      v := Accepted(ReviewPayload(AuthorName(author), rating, Trim(comment)));
      alert := None;
    }

    /** handleSubmit after the request: the `finally` lowers the flag
        whatever the outcome. */
    method FinishSubmit(outcome: SendOutcome) returns (alert: Option<Alert>)
      requires Valid() && submitting
      modifies this`submitting
      ensures Valid() && !submitting
      ensures alert == OutcomeAlert(outcome)
    {
      alert := OutcomeAlert(outcome);
      submitting := false;
    }

    /** One whole press of Submit: a payload is sent only when both checks
        pass, it then has a star rating and fits the input limits, and the
        flag is down again at the end. */
    method HandleSubmit(outcome: SendOutcome) returns (sent: Option<ReviewPayload>, alert: Option<Alert>)
      requires Valid() && !submitting
      modifies this`submitting
      ensures Valid() && !submitting
      ensures var v := Validate(author, rating, comment);
        && (v.Rejected? ==> sent == None && alert == Some(ErrorAlert(v.error)))
        && (v.Accepted? ==> sent == Some(v.payload) && alert == OutcomeAlert(outcome))
    ensures sent.Some? ==>
      && 1 <= sent.value.rating <= StarCount
      && |sent.value.authorName| <= MaxAuthorLength
      && |sent.value.comment| <= MaxCommentLength
    {
      var v;
      v, alert := BeginSubmit();
      if v.Accepted? {
        AcceptedPayload(author, rating, comment);
        PayloadBounds(author, rating, comment);
        sent := Some(v.payload);
        alert := FinishSubmit(outcome);
      } else {
        sent := None;
      }
    }
  }
}
