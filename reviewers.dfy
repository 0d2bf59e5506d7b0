/** A Goodreads user and the reviews collected from their read shelf. */
module Reviewers {
  import opened Runtime
  import opened Books

  class Reviewer {
    var name: string
    var url: string
    var userId: int32
    /** The `Reviews` list: the property is read-only, the list it holds is appended to. */
    var reviews: seq<BookReview>

    /** `new Reviewer(name, url, userid)`: nothing is checked, the list starts empty. */
    constructor (name: string, url: string, userId: int32)
      ensures this.name == name && this.url == url && this.userId == userId
      ensures reviews == []
    {
      this.name := name;
      this.url := url;
      this.userId := userId;
      reviews := [];
    }

    /** `addReview`: appends its argument after the reviews already held and reports success. */
    method AddReview(br: BookReview) returns (added: bool)
      modifies this
      ensures added
      ensures reviews == old(reviews) + [br]
      ensures |reviews| == |old(reviews)| + 1 && reviews[|reviews| - 1] == br
      ensures forall k :: 0 <= k < |old(reviews)| ==> reviews[k] == old(reviews)[k]
      ensures name == old(name) && url == old(url) && userId == old(userId)
    {
      reviews := reviews + [br];
      added := true;
    }
  }
}
