/** The gRPC `Voting` service (app/src/proto/voting.rs). */
module Voting {
  import opened Wrappers

  newtype int32 = x: int | -0x8000_0000 <= x < 0x8000_0000

  datatype VotingRequest = VotingRequest(url: string, vote: int32)

  datatype VotingResponse = VotingResponse(confirmation: string)

  /** The gRPC status codes (`Success` is the code named OK). */
  datatype Code =
    | Success | Cancelled | Unknown | InvalidArgument | DeadlineExceeded | NotFound
    | AlreadyExists | PermissionDenied | ResourceExhausted | FailedPrecondition
    | Aborted | OutOfRange | Unimplemented | Internal | Unavailable | DataLoss
    | Unauthenticated

  datatype Status = Status(code: Code, message: string)

  const Upvoted := "Happy to confirm that you upvoted for "
  const Downvoted := "Confirmation that you downvoted for "

  /** `VotingService::vote`: 0 is an upvote, 1 a downvote, anything else is out of range. */
  function Vote(request: VotingRequest): (r: Result<VotingResponse, Status>)
    ensures r.Ok? <==> request.vote == 0 || request.vote == 1
    ensures r.Err? ==> r.error == Status(OutOfRange, "Invalid vote provided")
    ensures request.vote == 0 ==> r.Ok? && r.value.confirmation == Upvoted + request.url
    ensures request.vote == 1 ==> r.Ok? && r.value.confirmation == Downvoted + request.url
  {
    match request.vote
    case 0 => Ok(VotingResponse(Upvoted + request.url))
    case 1 => Ok(VotingResponse(Downvoted + request.url))
    case _ => Err(Status(OutOfRange, "Invalid vote provided"))
  }

  /** A confirmation tells which vote was cast and for which url: no two accepted votes share one. */
  lemma ConfirmationIdentifiesVote(a: VotingRequest, b: VotingRequest)
    requires Vote(a).Ok? && Vote(b).Ok?
    requires Vote(a).value.confirmation == Vote(b).value.confirmation
    ensures a == b
  {
    var c := Vote(a).value.confirmation;
    assert c[0] == (if a.vote == 0 then 'H' else 'C');
    assert c[0] == (if b.vote == 0 then 'H' else 'C');
    var p := if a.vote == 0 then Upvoted else Downvoted;
    assert c[|p|..] == a.url && c[|p|..] == b.url;
  }
}
