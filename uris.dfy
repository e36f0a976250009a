/**
 * Hierarchical URIs as the IDE's `URI` class exposes them to the new-file command:
 * a scheme and the segments of the path, with `path`, `toString()` and `parent`.
 */
module Uris {

  /** `file:///ws/model` is `Uri("file", ["ws", "model"])`; no segments is the root. */
  datatype Uri = Uri(scheme: string, segments: seq<string>)

  /** The path text of a non-root segment list: a '/' before every segment. */
  function PathText(segments: seq<string>): (p: string)
    ensures segments != [] ==> |p| > 0 && p[0] == '/'
  {
    if segments == [] then ""
    else PathText(segments[..|segments| - 1]) + "/" + segments[|segments| - 1]
  }

  /** `uri.path`: "/" at the root. */
  function Path(u: Uri): (p: string)
    ensures |p| > 0 && p[0] == '/'
  {
    if u.segments == [] then "/" else PathText(u.segments)
  }

  /** `uri.toString()`. */
  function ToString(u: Uri): string
  {
    u.scheme + "://" + Path(u)
  }

  /** `uri.parent`: one segment up; the root is its own parent. */
  function Parent(u: Uri): (p: Uri)
    ensures p.scheme == u.scheme
    ensures u.segments == [] ==> p == u
    ensures u.segments != [] ==> p.segments + [u.segments[|u.segments| - 1]] == u.segments
  {
    if u.segments == [] then u else Uri(u.scheme, u.segments[..|u.segments| - 1])
  }
}
