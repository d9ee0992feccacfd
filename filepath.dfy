/**
  * `filepath.Base` and `filepath.Ext` of Go's package path/filepath, for a
  * Unix host (separator '/', no volume names), as the attachment part uses
  * them to name the file and to look up its media type.
  */
module FilePath {
  import opened Bytes

  const Slash: byte := 47
  const Dot: byte := 46

  /** The path without its trailing separators. */
  function TrimTrailingSlashes(p: seq<byte>): (r: seq<byte>)
    ensures r <= p
    ensures r == [] || r[|r| - 1] != Slash
    ensures forall i | |r| <= i < |p| :: p[i] == Slash
    decreases |p|
  {
    if p != [] && p[|p| - 1] == Slash then TrimTrailingSlashes(p[..|p| - 1]) else p
  }

  /** The bytes after the last separator. */
  function AfterLastSlash(p: seq<byte>): (r: seq<byte>)
    ensures |r| <= |p| && p[|p| - |r|..] == r
    ensures Slash !in r
    ensures |r| == |p| || p[|p| - |r| - 1] == Slash
    decreases |p|
  {
    if p == [] || p[|p| - 1] == Slash then []
    else AfterLastSlash(p[..|p| - 1]) + [p[|p| - 1]]
  }

  /** `filepath.Base`: "." for the empty path, "/" for a path of separators
      only, otherwise the last element once trailing separators are gone. */
  function Base(p: seq<byte>): (r: seq<byte>)
    ensures p == [] ==> r == [Dot]
    ensures p != [] && TrimTrailingSlashes(p) == [] ==> r == [Slash]
    ensures TrimTrailingSlashes(p) != [] ==>
      var t := TrimTrailingSlashes(p);
      r != [] && Slash !in r && |r| <= |t| && t[|t| - |r|..] == r &&
      (|r| == |t| || t[|t| - |r| - 1] == Slash)
  {
    if p == [] then [Dot]
    else
      var t := TrimTrailingSlashes(p);
      if t == [] then [Slash] else AfterLastSlash(t)
  }

  /** `filepath.Ext`: the suffix that starts at the last '.' of the last
      element, or empty when that element has no '.'. */
  function Ext(p: seq<byte>): (r: seq<byte>)
    ensures |r| <= |p| && p[|p| - |r|..] == r
    ensures r != [] ==> r[0] == Dot && Slash !in r && Dot !in r[1..]
    ensures r == [] ==> forall i | 0 <= i < |p| && p[i] == Dot :: Slash in p[i + 1..]
    decreases |p|
  {
    if p == [] || p[|p| - 1] == Slash then []
    else if p[|p| - 1] == Dot then [Dot]
    else
      var e := Ext(p[..|p| - 1]);
      if e == [] then [] else e + [p[|p| - 1]]
  }

  lemma BaseNoLineBreak(p: seq<byte>)
    requires NoLineBreak(p)
    ensures NoLineBreak(Base(p))
  {
    var t := TrimTrailingSlashes(p);
    if t != [] {
      var r := Base(p);
      assert t == p[..|t|];
      forall i | 0 <= i < |r| ensures r[i] in p {
        assert r[i] == t[|t| - |r| + i];
      }
    }
  }
}
