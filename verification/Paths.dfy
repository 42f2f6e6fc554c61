/**
 * Path strings: the component splitting shared by the PFS reader and the mounted namespace, and the
 * normal form the session caches use as keys.
 */
module Paths {

  predicate IsSeparator(c: char) {
    c == '/' || c == '\\'
  }

  /** A name that cannot be taken apart by separators. */
  predicate IsName(s: string) {
    s != "" && forall c :: c in s ==> !IsSeparator(c)
  }

  /** `path` ends inside a component. */
  predicate InWord(path: string) {
    path != "" && !IsSeparator(path[|path| - 1])
  }

  /** The maximal runs of non-separators, in order. */
  function Components(path: string): (r: seq<string>)
    ensures InWord(path) ==> r != []
  {
    if path == "" then []
    else
      var front, last := path[..|path| - 1], path[|path| - 1];
      var before := Components(front);
      if IsSeparator(last) then before
      else if InWord(front) then before[..|before| - 1] + [before[|before| - 1] + [last]]
      else before + [[last]]
  }

  lemma {:induction false} ComponentsSnoc(path: string, c: char)
    ensures Components(path + [c]) ==
      var before := Components(path);
      if IsSeparator(c) then before
      else if InWord(path) then before[..|before| - 1] + [before[|before| - 1] + [c]]
      else before + [[c]]
  {
    assert (path + [c])[..|path|] == path;
  }

  /** Components are names. */
  lemma {:induction false} ComponentsAreNames(path: string)
    ensures forall s :: s in Components(path) ==> IsName(s)
  {
    if path != "" {
      var front := path[..|path| - 1];
      ComponentsAreNames(front);
      var before := Components(front);
      if InWord(front) {
        assert before[|before| - 1] in before;
        assert forall s :: s in before[..|before| - 1] ==> s in before;
      }
    }
  }

  /** A name after a separator, or at the start, is one more component. */
  lemma {:induction false} ComponentsWord(path: string, word: string)
    requires IsName(word) && !InWord(path)
    ensures Components(path + word) == Components(path) + [word]
  {
    hide Components;
    var front, last := word[..|word| - 1], word[|word| - 1];
    assert last in word;
    assert path + word == (path + front) + [last];
    ComponentsSnoc(path + front, last);
    if front == "" {
      assert path + front == path;
      assert word == [last];
    } else {
      assert IsName(front) by {
        assert forall c :: c in front ==> c in word;
      }
      ComponentsWord(path, front);
      assert front[|front| - 1] in word;
      assert InWord(path + front);
      assert word == front + [last];
    }
  }

  /** Components joined by single slashes. */
  function Join(parts: seq<string>): string {
    if parts == [] then ""
    else if |parts| == 1 then parts[0]
    else Join(parts[..|parts| - 1]) + "/" + parts[|parts| - 1]
  }

  lemma {:induction false} JoinSnoc(parts: seq<string>, word: string)
    ensures Join(parts + [word]) == if parts == [] then word else Join(parts) + "/" + word
  {
    assert (parts + [word])[..|parts|] == parts;
  }

  lemma {:induction false} JoinInWord(parts: seq<string>)
    requires parts != [] && forall s :: s in parts ==> IsName(s)
    ensures InWord(Join(parts))
  {
    var last := parts[|parts| - 1];
    assert last in parts;
    assert last[|last| - 1] in last;
  }

  lemma {:induction false} ComponentsAfterSlash(path: string, word: string)
    requires IsName(word)
    ensures Components(path + "/" + word) == Components(path) + [word]
  {
    ComponentsSnoc(path, '/');
    assert path + "/" == path + ['/'];
    ComponentsWord(path + "/", word);
  }

  /** Splitting undoes joining. */
  lemma {:induction false} ComponentsOfJoin(parts: seq<string>)
    requires forall s :: s in parts ==> IsName(s)
    ensures Components(Join(parts)) == parts
  {
    hide Components, InWord, IsName;
    if parts == [] {
      NoComponents();
    } else {
      var front, last := parts[..|parts| - 1], parts[|parts| - 1];
      assert parts == front + [last];
      assert last in parts;
      assert forall s :: s in front ==> s in parts;
      ComponentsOfJoin(front);
      JoinSnoc(front, last);
      if front == [] {
        OneComponent(last);
      } else {
        ComponentsAfterSlash(Join(front), last);
      }
    }
  }

  lemma {:induction false} OneComponent(word: string)
    requires IsName(word)
    ensures Components(word) == [word]
  {
    ComponentsWord("", word);
    assert "" + word == word;
  }

  /** Slash and backslash both separate, and nothing else does. */
  lemma {:induction false} OnlySlashesSeparate(path: string, word: string)
    requires word != "" && '/' !in word && '\\' !in word
    ensures Components(word) == [word]
    ensures Components(path + "/" + word) == Components(path + "\\" + word) == Components(path) + [word]
    ensures Components(path + "/") == Components(path + "\\") == Components(path)
  {
    hide Components;
    OneComponent(word);
    ComponentsAfterSlash(path, word);
    ComponentsSnoc(path, '\\');
    ComponentsSnoc(path, '/');
    assert path + "\\" == path + ['\\'] && path + "/" == path + ['/'];
    ComponentsWord(path + "\\", word);
  }

  // ---- the cache key normal form ----

  /** The normal form: components joined by single slashes, nothing around them. */
  function Normalize(path: string): string {
    Join(Components(path))
  }

  /** The loop's view of a prefix: its normal form, and a slash when a separator followed it. */
  function Partial(path: string): string {
    Normalize(path) + if Components(path) != [] && !InWord(path) then "/" else ""
  }

  lemma PartialSnoc(path: string, c: char)
    ensures IsSeparator(c) && !InWord(path) ==> Partial(path + [c]) == Partial(path)
    ensures IsSeparator(c) && InWord(path) ==> Partial(path + [c]) == Partial(path) + "/"
    ensures !IsSeparator(c) ==> Partial(path + [c]) == Partial(path) + [c]
    ensures InWord(path + [c]) == !IsSeparator(c)
  {
    hide Components, Join;
    ComponentsSnoc(path, c);
    var before := Components(path);
    if IsSeparator(c) {
    } else if InWord(path) {
      var front, last := before[..|before| - 1], before[|before| - 1];
      assert before == front + [last];
      JoinSnoc(front, last);
      JoinSnoc(front, last + [c]);
      assert |Components(path + [c])| > 0;
    } else {
      NoneJoined();
      JoinSnoc(before, [c]);
    }
  }

  /**
   * Backslashes become slashes, runs of separators collapse, and none is left at either end: the
   * result is the normal form of the path.
   */
  method NormalizeCachePath(path: string) returns (normalized: string)
    ensures normalized == Normalize(path)
  {
    hide Partial, Components, Join, InWord, Normalize;
    normalized := "";
    var previousSlash := true;
    EmptyPartial();
    assert path[..0] == "";
    for i := 0 to |path|
      invariant normalized == Partial(path[..i])
      invariant previousSlash == !InWord(path[..i])
    {
      PartialSnoc(path[..i], path[i]);
      assert path[..i + 1] == path[..i] + [path[i]];
      var mapped := if path[i] == '\\' then '/' else path[i];
      if mapped == '/' {
        if !previousSlash {
          normalized := normalized + "/";
        }
        previousSlash := true;
      } else {
        normalized := normalized + [mapped];
        previousSlash := false;
      }
    }
    assert path[..|path|] == path;
    PartialTrim(path);
    while normalized != "" && normalized[|normalized| - 1] == '/'
      invariant normalized == Partial(path) || normalized == Normalize(path)
      decreases |normalized|
    {
      normalized := normalized[..|normalized| - 1];
    }
  }

  lemma NoneJoined()
    ensures Join([]) == ""
  {
  }

  lemma EmptyPartial()
    ensures Partial("") == "" && !InWord("")
  {
  }

  /** The normal form has no trailing slash; the loop leaves at most one. */
  lemma PartialTrim(path: string)
    ensures Partial(path) == Normalize(path) || Partial(path) == Normalize(path) + "/"
    ensures Normalize(path) == "" || Normalize(path)[|Normalize(path)| - 1] != '/'
    ensures Partial(path) == Normalize(path) + "/" ==> Partial(path)[..|Partial(path)| - 1] == Normalize(path)
  {
    ComponentsAreNames(path);
    if Components(path) != [] {
      JoinInWord(Components(path));
    }
  }

  /** Normalising keeps the component list, and so does nothing the second time. */
  lemma {:induction false} NormalizeSound(path: string)
    ensures Components(Normalize(path)) == Components(path)
    ensures Normalize(Normalize(path)) == Normalize(path)
  {
    ComponentsAreNames(path);
    ComponentsOfJoin(Components(path));
  }

  /** Two paths share a key exactly when they have the same components. */
  lemma {:induction false} NormalizeComplete(a: string, b: string)
    ensures Normalize(a) == Normalize(b) <==> Components(a) == Components(b)
  {
    NormalizeSound(a);
    NormalizeSound(b);
  }

  lemma {:induction false} PartialShort(path: string)
    ensures |Partial(path)| <= |path|
  {
    hide Partial, Components;
    if path == "" {
      EmptyPartial();
    } else {
      PartialShort(path[..|path| - 1]);
      PartialSnoc(path[..|path| - 1], path[|path| - 1]);
      assert path[..|path| - 1] + [path[|path| - 1]] == path;
    }
  }

  /** What the loop has left of a normal path is always all of it. */
  lemma {:induction false} NormalSoFar(path: string, rest: string)
    requires Partial(path + rest) == path + rest
    ensures Partial(path) == path
    decreases |rest|
  {
    hide Partial, Components;
    if rest == "" {
      assert path + rest == path;
    } else {
      var front, last := rest[..|rest| - 1], rest[|rest| - 1];
      var before := path + front;
      assert path + rest == before + [last];
      PartialSnoc(before, last);
      PartialShort(before);
      assert (before + [last])[..|before|] == before;
      NormalSoFar(path, front);
    }
  }

  /** The part of a normal path up to the end of a component character is normal. */
  lemma NormalPrefix(path: string, rest: string)
    requires Normalize(path + rest) == path + rest && InWord(path)
    ensures Normalize(path) == path
  {
    hide Components, Join;
    PartialShort(path + rest);
    PartialTrim(path + rest);
    NormalSoFar(path, rest);
  }

  function ChildPath(parent: string, name: string): string {
    var path := Normalize(parent);
    (if path != "" then path + "/" else path) + name
  }

  /** What follows a slash adds its own components, whatever it is. */
  lemma {:induction false} ComponentsAfter(path: string, rest: string)
    ensures Components(path + "/" + rest) == Components(path) + Components(rest)
    ensures rest != "" ==> InWord(path + "/" + rest) == InWord(rest)
  {
    hide Components;
    ComponentsSnoc(path, '/');
    assert path + "/" == path + ['/'];
    if rest == "" {
      NoComponents();
      assert path + "/" + rest == path + "/";
      assert Components(path) + [] == Components(path);
    } else {
      var front, last := rest[..|rest| - 1], rest[|rest| - 1];
      assert rest == front + [last];
      assert path + "/" + rest == (path + "/" + front) + [last];
      ComponentsAfter(path, front);
      ComponentsSnoc(path + "/" + front, last);
      ComponentsSnoc(front, last);
      assert InWord(path + "/" + front) == InWord(front) by {
        if front == "" {
          assert path + "/" + front == path + ['/'];
        }
      }
    }
  }

  /** A child's path has the parent's components and then those of its name, whatever the name is. */
  lemma {:induction false} ChildPathComponents(parent: string, name: string)
    ensures Components(ChildPath(parent, name)) == Components(parent) + Components(name)
  {
    hide Components, Join, Normalize;
    NormalizeSound(parent);
    if Normalize(parent) == "" {
      NoComponents();
      assert "" + name == name;
      assert [] + Components(name) == Components(name);
    } else {
      ComponentsAfter(Normalize(parent), name);
    }
  }

  /** A child's path has the parent's components and then its name. */
  lemma {:induction false} ChildComponents(parent: string, name: string)
    requires IsName(name)
    ensures Components(ChildPath(parent, name)) == Components(parent) + [name]
    ensures Normalize(ChildPath(parent, name)) == ChildPath(parent, name)
  {
    NormalizeSound(parent);
    var path := Normalize(parent);
    ComponentsAreNames(parent);
    var parts := Components(parent);
    if parts == [] {
      ComponentsWord("", name);
      assert "" + name == name;
      JoinSnoc([], name);
      assert [] + [name] == [name];
    } else {
      JoinInWord(parts);
      ComponentsSnoc(path, '/');
      assert path + "/" == path + ['/'];
      ComponentsWord(path + "/", name);
      JoinSnoc(parts, name);
    }
  }

  // ---- cutting a path into words ----

  method SkipSeparators(path: string, start: nat) returns (next: nat)
    requires start <= |path| && (start == 0 || start == |path| || IsSeparator(path[start]) || !InWord(path[..start]))
    ensures start <= next <= |path| && Components(path[..next]) == Components(path[..start])
    ensures next == |path| || !IsSeparator(path[next])
    ensures next < |path| ==> !InWord(path[..next])
  {
    next := start;
    while next < |path| && IsSeparator(path[next])
      invariant start <= next <= |path|
      invariant Components(path[..next]) == Components(path[..start])
      invariant next > start ==> !InWord(path[..next])
    {
      ComponentsSnoc(path[..next], path[next]);
      assert path[..next + 1] == path[..next] + [path[next]];
      next := next + 1;
    }
  }

  method TakeWord(path: string, start: nat) returns (end: nat)
    requires start < |path| && !IsSeparator(path[start]) && !InWord(path[..start])
    ensures start < end <= |path| && IsName(path[start..end])
    ensures Components(path[..end]) == Components(path[..start]) + [path[start..end]]
    ensures end == |path| || IsSeparator(path[end])
  {
    end := start;
    while end < |path| && !IsSeparator(path[end])
      invariant start <= end <= |path|
      invariant forall k :: start <= k < end ==> !IsSeparator(path[k])
    {
      end := end + 1;
    }
    assert path[..end] == path[..start] + path[start..end];
    ComponentsWord(path[..start], path[start..end]);
  }

  /** The splitting loop computes exactly the components. */
  method SplitPath(path: string) returns (parts: seq<string>)
    ensures parts == Components(path)
  {
    hide Components;
    parts := [];
    var start := 0;
    NoComponents();
    assert path[..0] == "";
    while start < |path|
      invariant start <= |path|
      invariant start == 0 || start == |path| || IsSeparator(path[start])
      invariant parts == Components(path[..start])
    {
      start := SkipSeparators(path, start);
      if start == |path| {
        break;
      }
      var end := TakeWord(path, start);
      parts := parts + [path[start..end]];
      start := end;
    }
    assert path[..|path|] == path;
  }

  lemma NoComponents()
    ensures Components("") == []
  {
  }
}
