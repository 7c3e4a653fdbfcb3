/** The server's reading of the language model's free-text reply into one of
    the three sentiment labels, exactly as the request handler does it:
    lower-case, trim, then test for "agree" before "disagree". */
module Sentiment {
  import opened Text
  import opened AnalysisTypes

  datatype Sentiment = Agree | Disagree | Neutral

  /** The label string stored on a classified comment. */
  function Label(s: Sentiment): (r: string)
    ensures IsKnownLabel(r)
  {
    match s
    case Agree => "agree"
    case Disagree => "disagree"
    case Neutral => "neutral"
  }

  /** The label chosen for a reply: lower-case, trim, then look for "agree"
      before "disagree". A reply is labelled `agree` exactly when its
      lower-cased form contains "agree", and `neutral` exactly when it does
      not. Because "agree" is looked for first and is a substring of
      "disagree", the middle branch is never taken and the label is never
      `disagree`, whatever the reply. */
  function Normalise(reply: string): (r: Sentiment)
    ensures r == Agree <==> Includes(Lower(reply), "agree")
    ensures r == Neutral <==> !Includes(Lower(reply), "agree")
    ensures r != Disagree
  {
    var t := Trim(Lower(reply));
    AgreeBeforeDisagree(reply);
    if Includes(t, "agree") then Agree
    else if Includes(t, "disagree") then Disagree
    else Neutral
  }

  /** What the two tests see of a reply once it is lower-cased and trimmed:
      "agree" is found there exactly when the lower-cased reply holds it, and
      whenever "disagree" is found, "agree" is too. */
  lemma AgreeBeforeDisagree(reply: string)
    ensures Includes(Trim(Lower(reply)), "agree") <==> Includes(Lower(reply), "agree")
    ensures Includes(Trim(Lower(reply)), "disagree") ==> Includes(Trim(Lower(reply)), "agree")
  {
    IncludesTrim(Lower(reply), "agree");
    DisagreeContainsAgree(Trim(Lower(reply)));
  }

  /** Every text containing "disagree" also contains "agree". */
  lemma DisagreeContainsAgree(s: string)
    ensures Includes(s, "disagree") ==> Includes(s, "agree")
  {
    if Includes(s, "disagree") {
      var i :| OccursAt(s, "disagree", i);
      assert s[i + 3..i + 8] == s[i..i + 8][3..];
      assert OccursAt(s, "agree", i + 3);
    }
  }

  /** A reply saying "disagree", in any letter case, is labelled `agree`. */
  lemma DisagreeReplyIsAgree(reply: string)
    requires Includes(Lower(reply), "disagree")
    ensures Normalise(reply) == Agree
  {
    DisagreeContainsAgree(Lower(reply));
  }

  /** Two replies that differ only in the case of their letters. */
  predicate SameIgnoringCase(a: string, b: string) {
    |a| == |b| && forall i :: 0 <= i < |a| ==> LowerChar(a[i]) == LowerChar(b[i])
  }

  /** The label does not depend on letter case. */
  lemma NormaliseIgnoresCase(a: string, b: string)
    requires SameIgnoringCase(a, b)
    ensures Normalise(a) == Normalise(b)
  {
    assert Lower(a) == Lower(b);
  }

  /** The label does not depend on whitespace around the reply. */
  lemma NormaliseIgnoresPadding(p: string, reply: string, q: string)
    requires AllSpace(p) && AllSpace(q)
    ensures Normalise(p + reply + q) == Normalise(reply)
  {
    LowerConcat(p, reply, q);
    IncludesPadded(p, Lower(reply), q, "agree");
  }
}

/** Sample model replies, read as the request handler reads them. */
module SentimentExamples {
  import opened Text
  import opened Sentiment

  /** "Agree" is labelled `agree`. */
  lemma AgreeExample()
    ensures Normalise("Agree") == Agree
  {
    assert Lower("Agree") == "agree";
    assert OccursAt("agree", "agree", 0);
  }

  /** Agreement in capitals with punctuation is labelled `agree`. */
  lemma ShoutedAgreeExample()
    ensures Normalise("AGREE.") == Agree
  {
    assert Lower("AGREE.") == "agree.";
    assert OccursAt("agree.", "agree", 0);
  }

  /** "agree" inside a sentence is found. */
  lemma AgreeInSentenceExample()
    ensures Normalise("I agree with this.") == Agree
  {
    var s := "I agree with this.";
    assert forall i :: 0 <= i < |s| ==> Lower(s)[i] == LowerChar(s[i]);
    assert Lower(s) == "i agree with this.";
    assert OccursAt(Lower(s), "agree", 2);
  }

  /** A reply of "Disagree" is labelled `agree`. */
  lemma DisagreeExample()
    ensures Normalise("Disagree") == Agree
  {
    assert Lower("Disagree") == "disagree";
    assert OccursAt("disagree", "disagree", 0);
    DisagreeReplyIsAgree("Disagree");
  }

  /** A reply without "agree" in it is labelled `neutral`. */
  lemma NeutralExample()
    ensures Normalise("Unclear") == Neutral
  {
    var s := "unclear";
    assert !Includes(s, "agree") by {
      assert forall i :: OccursAt(s, "agree", i) ==> i <= 2 && s[i] == 'a';
      assert s[0] != 'a' && s[1] != 'a' && s[2] != 'a';
    }
    assert Lower("Unclear") == s;
  }

  /** An empty reply is not an error: it is labelled `neutral`. */
  lemma EmptyReplyExample()
    ensures Normalise("") == Neutral
  {
    assert Lower("") == "";
  }
}
