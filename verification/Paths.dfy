/**
 Texts a kernel supplies. The host may only append a request path to an endpoint's base URL, so no part of
 it may lead elsewhere: the check made character by character is the one on whole segments.
 */
module Paths {
  import opened Wire

  /** The ASCII codes of letters, of digits and of `-`, `.`, `:` and `_`. */
  predicate InIdentifiers(code: int) {
    65 <= code <= 90 || 97 <= code <= 122 || 48 <= code <= 57 || code in {45, 46, 58, 95}
  }

  /** An identifier is made of 1 to 160 of these. */
  lemma IdentifiersAreMadeOf(text: string)
    ensures ValidIdentifier(text) <==>
      0 < |text| <= 160 && forall i :: 0 <= i < |text| ==> InIdentifiers(text[i] as int)
  {
    assert forall i :: 0 <= i < |text| ==> (IdentifierByte(text[i]) <==> InIdentifiers(text[i] as int));
  }

  /** A text cut at every `mark`. */
  function Split(s: string, mark: char): (parts: seq<string>)
    ensures parts != []
  {
    if s == [] then [[]]
    else
      var rest := Split(s[1..], mark);
      if s[0] == mark then [[]] + rest else [[s[0]] + rest[0]] + rest[1..]
  }

  predicate IsDots(segment: string) {
    segment == "." || segment == ".."
  }

  function Lowered(c: char): char {
    if 'A' <= c <= 'Z' then c - 'A' + 'a' else c
  }

  /** Whether the text holds `%2e` at `i`, in any letter case. */
  predicate HoldsEncodedDot(s: string, i: nat) {
    i + 3 <= |s| && s[i] == '%' && s[i + 1] == '2' && Lowered(s[i + 2]) == 'e'
  }

  lemma {:induction false} RouteIsFirstPart(path: string)
    ensures Route(path) == Split(path, '?')[0]
  {
    if path != [] {
      RouteIsFirstPart(path[1..]);
    }
  }

  lemma DotsByLength(segment: string)
    ensures IsDots(segment) <==>
      || (|segment| == 1 && segment[0] == '.')
      || (|segment| == 2 && segment[0] == '.' && segment[1] == '.')
  {
  }

  /** The first part is empty exactly when the text is, or starts with the mark. */
  lemma FirstPart(s: string, mark: char)
    ensures Split(s, mark)[0] == [] <==> s == [] || s[0] == mark
    ensures s != [] && s[0] != mark ==> Split(s, mark)[0] == [s[0]] + Split(s[1..], mark)[0]
  {
  }

  lemma FirstSegment(s: string)
    ensures IsDots(Split(s, '/')[0]) <==> DotSegmentAt(s, 0)
  {
    DotsByLength(Split(s, '/')[0]);
    FirstPart(s, '/');
    if s != [] && s[0] != '/' {
      FirstPart(s[1..], '/');
      if s[1..] != [] && s[1..][0] != '/' {
        FirstPart(s[1..][1..], '/');
      }
    }
    hide Split, IsDots;
  }

  /** A segment after the first is dots exactly when it is so after one of the slashes. */
  lemma {:induction false} LaterSegments(s: string)
    ensures (exists k :: 0 < k < |Split(s, '/')| && IsDots(Split(s, '/')[k]))
       <==> (exists i :: 0 <= i < |s| && s[i] == '/' && DotSegmentAt(s, i + 1))
  {
    if s != [] {
      var t := s[1..];
      var parts, rest := Split(s, '/'), Split(t, '/');
      LaterSegments(t);
      FirstSegment(t);
      DotsAfterOne(s);
      if s[0] == '/' {
        assert forall k :: 0 <= k < |rest| ==> parts[k + 1] == rest[k];
        if k :| 0 < k < |parts| && IsDots(parts[k]) {
          assert k > 1 ==> IsDots(rest[k - 1]);
        }
      } else {
        assert forall k :: 0 < k < |rest| ==> parts[k] == rest[k];
      }
    }
  }

  /** Where dots follow a slash in a text, and in what is left of it after its first character. */
  lemma DotsAfterOne(s: string)
    requires s != []
    ensures (exists i :: 0 <= i < |s| && s[i] == '/' && DotSegmentAt(s, i + 1)) <==>
      || (s[0] == '/' && DotSegmentAt(s[1..], 0))
      || exists i :: 0 <= i < |s[1..]| && s[1..][i] == '/' && DotSegmentAt(s[1..], i + 1)
  {
    var t := s[1..];
    assert forall i: nat :: DotSegmentAt(s, i + 1) <==> DotSegmentAt(t, i);
    forall i | 0 <= i < |t| && t[i] == '/' && DotSegmentAt(t, i + 1)
      ensures s[i + 1] == '/' && DotSegmentAt(s, i + 1 + 1)
    {
    }
    forall i | 0 < i < |s| && s[i] == '/' && DotSegmentAt(s, i + 1)
      ensures t[i - 1] == '/' && DotSegmentAt(t, i - 1 + 1)
    {
    }
  }

  /** An accepted path starts with a single slash, is visible text of at most 2048 bytes without backslash or
      fragment, and its route, what comes before a query, has no segment of dots and no encoded dot. */
  lemma {:induction false} PathsOnlyAppend(path: string)
    ensures ValidHttpPath(path) <==>
      && 0 < |path| <= 2048 && path[0] == '/' && (|path| > 1 ==> path[1] != '/')
      && (forall i :: 0 <= i < |path| ==> 0x21 <= path[i] as int <= 0x7E && path[i] !in {'\\', '#'})
      && var route := Split(path, '?')[0];
         && (forall i :: 0 <= i < |route| ==> !HoldsEncodedDot(route, i))
         && forall k :: 0 < k < |Split(route, '/')| ==> !IsDots(Split(route, '/')[k])
  {
    RouteIsFirstPart(path);
    LaterSegments(Route(path));
    hide Split, Route, DotSegmentAt;
    assert forall i: nat :: HoldsEncodedDot(Route(path), i) <==> EncodedDotAt(Route(path), i);
  }
}
