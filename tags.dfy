/**
 * The tag helpers shared by features, scenarios and outlines: strip the
 * marker from each tag name, and turn the tags into a metadata hash.
 */
module Tags {

  /** A metadata value: a boolean flag or the externally supplied spec type. */
  datatype MetaValue = Flag(on: bool) | Classification(value: string)

  /** `i` is where `sub(/^@/, '')` may match in `s`: an `@` at the start of
      a line.  `lineStart` says whether position 0 starts a line. */
  ghost predicate MarkerAt(s: string, i: int, lineStart: bool) {
    0 <= i < |s| && s[i] == '@' && (if i == 0 then lineStart else s[i - 1] == '\n')
  }

  /** Removes the first `@` that stands at the start of a line. */
  function StripFrom(s: string, lineStart: bool): string
    decreases |s|
  {
    if s == [] then []
    else if lineStart && s[0] == '@' then s[1..]
    else [s[0]] + StripFrom(s[1..], s[0] == '\n')
  }

  /** `tag.name.sub(/^@/, '')`: Ruby's `^` matches at the start of the string
      and after every newline; `sub` replaces the first match only. */
  function StripTag(name: string): string {
    StripFrom(name, true)
  }

  lemma {:induction false} StripFromRemovesFirst(s: string, lineStart: bool, i: int)
    requires MarkerAt(s, i, lineStart)
    requires forall k :: 0 <= k < i ==> !MarkerAt(s, k, lineStart)
    ensures StripFrom(s, lineStart) == s[..i] + s[i + 1..]
    decreases |s|
  {
    if i > 0 {
      assert !MarkerAt(s, 0, lineStart);
      var t, flag := s[1..], s[0] == '\n';
      forall k | 0 <= k < i - 1
        ensures !MarkerAt(t, k, flag)
      {
        assert !MarkerAt(s, k + 1, lineStart);
      }
      StripFromRemovesFirst(t, flag, i - 1);
      assert s[..i] + s[i + 1..] == [s[0]] + (t[..i - 1] + t[i..]);
    }
  }

  lemma {:induction false} StripFromNone(s: string, lineStart: bool)
    requires forall k :: 0 <= k < |s| ==> !MarkerAt(s, k, lineStart)
    ensures StripFrom(s, lineStart) == s
    decreases |s|
  {
    if s != [] {
      assert !MarkerAt(s, 0, lineStart);
      var t, flag := s[1..], s[0] == '\n';
      forall k | 0 <= k < |t|
        ensures !MarkerAt(t, k, flag)
      {
        assert !MarkerAt(s, k + 1, lineStart);
      }
      StripFromNone(t, flag);
      assert s == [s[0]] + t;
    }
  }

  /** Stripping removes exactly the first line-start `@`, and nothing when
      there is none; in particular a leading `@` is the one removed. */
  lemma StripTagRemovesFirstMarker(name: string, i: int)
    requires MarkerAt(name, i, true)
    requires forall k :: 0 <= k < i ==> !MarkerAt(name, k, true)
    ensures StripTag(name) == name[..i] + name[i + 1..]
  {
    StripFromRemovesFirst(name, true, i);
  }

  lemma StripTagWithoutMarker(name: string)
    requires forall k :: 0 <= k < |name| ==> !MarkerAt(name, k, true)
    ensures StripTag(name) == name
  {
    StripFromNone(name, true);
  }

  /** A one-line tag loses at most its leading `@`. */
  lemma StripTagOneLine(name: string)
    requires '\n' !in name
    ensures |name| > 0 && name[0] == '@' ==> StripTag(name) == name[1..]
    ensures (|name| == 0 || name[0] != '@') ==> StripTag(name) == name
  {
    if |name| > 0 && name[0] == '@' {
      StripTagRemovesFirstMarker(name, 0);
    } else {
      forall k | 0 <= k < |name|
        ensures !MarkerAt(name, k, true)
      {
        if k > 0 {
          assert name[k - 1] in name;
        }
      }
      StripTagWithoutMarker(name);
    }
  }

  /** `tags`: every tag name stripped of its marker, in order. */
  function Tags(rawTags: seq<string>): (r: seq<string>)
    ensures |r| == |rawTags|
    ensures forall i :: 0 <= i < |r| ==> r[i] == StripTag(rawTags[i])
    decreases |rawTags|
  {
    if rawTags == [] then [] else [StripTag(rawTags[0])] + Tags(rawTags[1..])
  }

  /** `tags_hash`: each stripped tag maps to `true`; duplicates collapse. */
  function TagsHash(rawTags: seq<string>): (m: map<string, MetaValue>)
    ensures forall i :: 0 <= i < |rawTags| ==> StripTag(rawTags[i]) in m
    ensures forall t :: t in m ==> m[t] == Flag(true) && t in Tags(rawTags)
  {
    var tags := Tags(rawTags);
    assert forall i :: 0 <= i < |rawTags| ==> tags[i] == StripTag(rawTags[i]);
    map t | t in tags :: Flag(true)
  }
}
