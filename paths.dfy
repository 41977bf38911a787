/** The folder the media browser opens in (imageplus.panel.input.js,
    `createImageBrowser`, lines 89-91): split the path on '/', drop the
    last segment, join the rest with '/'. */
module Paths {

  /** `String.prototype.split('/')`: always at least one segment. */
  function Split(s: string): (parts: seq<string>)
    ensures |parts| >= 1
  {
    if s == [] then [""]
    else
      var rest := Split(s[1..]);
      if s[0] == '/' then [""] + rest else [[s[0]] + rest[0]] + rest[1..]
  }

  /** `Array.prototype.join('/')`; the empty array joins to "". */
  function Join(parts: seq<string>): (r: string) {
    if parts == [] then ""
    else if |parts| == 1 then parts[0]
    else parts[0] + "/" + Join(parts[1..])
  }

  function LastSegment(s: string): (r: string) {
    Split(s)[|Split(s)| - 1]
  }

  /** Lines 89-91. */
  function OpenTo(src: string): (r: string) {
    var parts := Split(src);
    Join(parts[..|parts| - 1])
  }

  /** No segment contains a '/', and there is more than one segment exactly
      when the path contains a '/'. */
  lemma {:induction false} SplitSegments(s: string)
    ensures forall i :: 0 <= i < |Split(s)| ==> '/' !in Split(s)[i]
    ensures |Split(s)| == 1 <==> '/' !in s
    decreases |s|
  {
    if s != [] {
      SplitSegments(s[1..]);
      var rest := Split(s[1..]);
      assert s == [s[0]] + s[1..];
      if s[0] != '/' {
        assert '/' !in [s[0]] + rest[0];
      }
    }
  }

  /** Joining the segments gives back the path. */
  lemma {:induction false} JoinSplit(s: string)
    ensures Join(Split(s)) == s
    decreases |s|
  {
    if s != [] {
      JoinSplit(s[1..]);
      var rest := Split(s[1..]);
      if s[0] == '/' {
        assert Join([""] + rest) == "" + "/" + Join(rest) by {
          assert ([""] + rest)[1..] == rest;
        }
      } else {
        var parts := [[s[0]] + rest[0]] + rest[1..];
        if |rest| == 1 {
          assert Join(parts) == [s[0]] + rest[0];
        } else {
          assert parts[1..] == rest[1..];
          assert Join(rest) == rest[0] + "/" + Join(rest[1..]);
          assert Join(parts) == [s[0]] + rest[0] + "/" + Join(rest[1..]);
        }
      }
      assert s == [s[0]] + s[1..];
    }
  }

  lemma {:induction false} JoinLast(parts: seq<string>)
    requires |parts| >= 2
    ensures Join(parts) == Join(parts[..|parts| - 1]) + "/" + parts[|parts| - 1]
    decreases |parts|
  {
    if |parts| > 2 {
      JoinLast(parts[1..]);
      assert parts[1..][..|parts| - 2] == parts[..|parts| - 1][1..];
    } else {
      assert parts[..1] == [parts[0]];
    }
  }

  /** The folder is the path up to its last '/', or "" when it has none. */
  lemma OpenToIsFolder(src: string)
    ensures '/' !in src ==> OpenTo(src) == ""
    ensures '/' in src ==> src == OpenTo(src) + "/" + LastSegment(src)
    ensures '/' !in LastSegment(src)
  {
    SplitSegments(src);
    JoinSplit(src);
    if '/' in src {
      JoinLast(Split(src));
    }
  }
}
