/** The records the server stores and the page reads back. */
module AnalysisTypes {

  /** A comment's publication time, as milliseconds since the epoch. */
  type Timestamp = int

  /** A comment as retrieved from the video site, before classification. */
  datatype RawComment = RawComment(text: string, date: Timestamp)

  /** A classified comment. The sentiment travels as a string: the server
      writes one of the labels, the page compares against them. */
  datatype Comment = Comment(text: string, sentiment: string, date: Timestamp)

  /** The three sentiment strings the server writes and the page counts. */
  predicate IsKnownLabel(s: string) {
    s == "agree" || s == "disagree" || s == "neutral"
  }

  /** The stored analysis of one video. The store-assigned identifier and
      creation time are not part of this model. */
  datatype Analysis = Analysis(videoId: string, comments: seq<Comment>, keywords: seq<string>)
}
