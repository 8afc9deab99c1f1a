/** Names of repository directories in a Hugging Face cache: `models--org--name` for `org/name`. */
module RepoDirName {
  import opened Wrappers

  /** The kind table is a plain object, so a lookup can also find what every object inherits. */
  datatype Kind =
    | Model
    | Dataset
    | Inherited(key: string)

  datatype Repo = Repo(kind: Kind, repoId: string)

  // ----- Splitting and joining -----

  predicate StartsDouble(s: string) {
    |s| >= 2 && s[0] == '-' && s[1] == '-'
  }

  function Onto(c: char, parts: seq<string>): (r: seq<string>)
    requires parts != []
    ensures |r| == |parts| && r[0] == [c] + parts[0] && r[1..] == parts[1..]
  {
    [[c] + parts[0]] + parts[1..]
  }

  /** `s.split("--")`: separators are taken leftmost first and do not overlap. */
  function Parts(s: string): (parts: seq<string>)
    ensures parts != []
    decreases |s|
  {
    if s == [] then [""]
    else if StartsDouble(s) then [""] + Parts(s[2..])
    else Onto(s[0], Parts(s[1..]))
  }

  /** `s.split("/")`. */
  function Segments(s: string): (segments: seq<string>)
    ensures segments != []
    decreases |s|
  {
    if s == [] then [""]
    else if s[0] == '/' then [""] + Segments(s[1..])
    else Onto(s[0], Segments(s[1..]))
  }

  lemma JoinedOnto(c: char, parts: seq<string>, separator: string)
    requires parts != []
    ensures Joined(Onto(c, parts), separator) == [c] + Joined(parts, separator)
  {
    hide Onto;
    var front := Onto(c, parts);
    if |parts| > 1 {
      var tail := separator + Joined(parts[1..], separator);
      assert Joined(front, separator) == [c] + parts[0] + tail;
      assert Joined(parts, separator) == parts[0] + tail;
    }
  }

  lemma JoinedEmptyFront(parts: seq<string>, separator: string)
    requires parts != []
    ensures Joined([""] + parts, separator) == separator + Joined(parts, separator)
  {
    assert ([""] + parts)[1..] == parts;
  }

  lemma PartsStep(s: string)
    ensures s == [] ==> Parts(s) == [""]
    ensures StartsDouble(s) ==> Parts(s) == [""] + Parts(s[2..]) && s == "--" + s[2..]
    ensures s != [] && !StartsDouble(s) ==> Parts(s) == Onto(s[0], Parts(s[1..])) && s == [s[0]] + s[1..]
  {
    hide Onto;
  }

  lemma JoinedOne(x: string, separator: string)
    ensures Joined([x], separator) == x
  {
  }

  lemma {:induction false} JoinedParts(s: string)
    ensures Joined(Parts(s), "--") == s
    decreases |s|
  {
    hide Parts, Joined, Onto;
    PartsStep(s);
    if s == [] {
      JoinedOne("", "--");
    } else if StartsDouble(s) {
      JoinedParts(s[2..]);
      JoinedEmptyFront(Parts(s[2..]), "--");
    } else {
      JoinedParts(s[1..]);
      JoinedOnto(s[0], Parts(s[1..]), "--");
    }
  }

  lemma {:induction false} JoinedSegments(s: string)
    ensures Joined(Segments(s), "/") == s
    ensures forall segment :: segment in Segments(s) ==> '/' !in segment
    decreases |s|
  {
    if s != [] {
      JoinedSegments(s[1..]);
      if s[0] == '/' {
        JoinedEmptyFront(Segments(s[1..]), "/");
        assert "/" + s[1..] == s;
      } else {
        JoinedOnto(s[0], Segments(s[1..]), "/");
      }
    }
  }

  lemma Shift(x: string, separator: string, rest: string)
    requires x != []
    ensures (x + separator + rest)[1..] == x[1..] + separator + rest
    ensures (x + separator + rest)[0] == x[0]
    ensures |x| > 1 ==> (x + separator + rest)[1] == x[1]
    ensures |x| == 1 && separator != [] ==> (x + separator + rest)[1] == separator[0]
  {
  }

  lemma EmptyFront(x: string, separator: string, rest: string)
    requires x == []
    ensures x + separator + rest == separator + rest
    ensures (separator + rest)[|separator|..] == rest
  {
  }

  lemma OntoFront(x: string, parts: seq<string>)
    requires x != []
    ensures Onto(x[0], [x[1..]] + parts) == [x] + parts
    ensures Onto(x[0], [x[1..]]) == [x]
  {
    assert ([x[1..]] + parts)[1..] == parts && [x[0]] + x[1..] == x;
  }

  predicate SlashFree(parts: seq<string>) {
    forall i :: 0 <= i < |parts| ==> '/' !in parts[i]
  }

  lemma {:induction false} SegmentFront(x: string, rest: string)
    requires '/' !in x
    ensures Segments(x + "/" + rest) == [x] + Segments(rest)
    ensures Segments(x) == [x]
    decreases |x|
  {
    if x == [] {
      EmptyFront(x, "/", rest);
    } else {
      SegmentFront(x[1..], rest);
      Shift(x, "/", rest);
      OntoFront(x, Segments(rest));
    }
  }

  lemma {:induction false} SegmentsOfJoined(parts: seq<string>)
    requires parts != [] && SlashFree(parts)
    ensures Segments(Joined(parts, "/")) == parts
    decreases |parts|
  {
    if |parts| == 1 {
      SegmentFront(parts[0], "");
    } else {
      SegmentsOfJoined(parts[1..]);
      SegmentFront(parts[0], Joined(parts[1..], "/"));
      assert [parts[0]] + parts[1..] == parts;
    }
  }

  lemma {:induction false} PartsOfSlashFree(s: string)
    requires '/' !in s
    ensures SlashFree(Parts(s))
    decreases |s|
  {
    if s != [] {
      PartsOfSlashFree(if StartsDouble(s) then s[2..] else s[1..]);
    }
  }

  lemma {:induction false} JoinedSlashFree(parts: seq<string>)
    requires parts != [] && SlashFree(parts)
    ensures '/' !in Joined(parts, "--")
    decreases |parts|
  {
    if |parts| > 1 {
      JoinedSlashFree(parts[1..]);
    }
  }

  // ----- Which lists of parts survive the trip -----

  predicate NoDouble(x: string) {
    forall i :: 0 <= i < |x| - 1 ==> !(x[i] == '-' && x[i + 1] == '-')
  }

  predicate EndsInDash(x: string) {
    x != [] && x[|x| - 1] == '-'
  }

  /** No part holds the separator, and only the last may end in a dash. */
  predicate Separable(parts: seq<string>) {
    && (forall i :: 0 <= i < |parts| ==> NoDouble(parts[i]))
    && (forall i :: 0 <= i < |parts| - 1 ==> !EndsInDash(parts[i]))
  }

  lemma NoDoubleTail(x: string)
    requires x != [] && NoDouble(x)
    ensures NoDouble(x[1..]) && !StartsDouble(x)
    ensures !EndsInDash(x) ==> !EndsInDash(x[1..])
  {
  }

  lemma {:induction false} PartFront(x: string, rest: string)
    requires NoDouble(x)
    ensures Parts(x) == [x]
    ensures !EndsInDash(x) ==> Parts(x + "--" + rest) == [x] + Parts(rest)
    decreases |x|
  {
    hide NoDouble;
    if x == [] {
      EmptyFront(x, "--", rest);
    } else {
      NoDoubleTail(x);
      PartFront(x[1..], rest);
      OntoFront(x, Parts(rest));
      if !EndsInDash(x) {
        Shift(x, "--", rest);
        assert !StartsDouble(x + "--" + rest);
      }
    }
  }

  lemma {:induction false} PartsOfSeparable(parts: seq<string>)
    requires parts != [] && Separable(parts)
    ensures Parts(Joined(parts, "--")) == parts
    decreases |parts|
  {
    if |parts| == 1 {
      PartFront(parts[0], "");
    } else {
      PartsOfSeparable(parts[1..]);
      PartFront(parts[0], Joined(parts[1..], "--"));
      assert [parts[0]] + parts[1..] == parts;
    }
  }

  lemma FirstPart(s: string)
    ensures Parts(s)[0] == "" && |Parts(s)| > 1 ==> StartsDouble(s)
    ensures Parts(s)[0] != "" ==> s != [] && !StartsDouble(s) && Parts(s)[0][0] == s[0]
  {
  }

  lemma {:induction false} PartsAreSeparable(s: string)
    ensures Separable(Parts(s))
    decreases |s|
  {
    if s != [] {
      if StartsDouble(s) {
        PartsAreSeparable(s[2..]);
      } else {
        var parts := Parts(s[1..]);
        PartsAreSeparable(s[1..]);
        FirstPart(s[1..]);
        DashOnto(s[0], parts);
      }
    }
  }

  lemma DashOnto(c: char, parts: seq<string>)
    requires parts != [] && Separable(parts)
    requires c == '-' && parts[0] == "" ==> |parts| == 1
    requires c == '-' && parts[0] != "" ==> parts[0][0] != '-'
    ensures Separable(Onto(c, parts))
  {
    var front := [c] + parts[0];
    assert forall i :: 0 < i < |front| ==> front[i] == parts[0][i - 1];
    assert NoDouble(front) by {
      assert NoDouble(parts[0]);
    }
    assert |parts| > 1 ==> !EndsInDash(parts[0]) && !EndsInDash(front);
    assert Onto(c, parts) == [front] + parts[1..];
  }

  // ----- The codec -----

  /** String-keyed properties of `Object.prototype` in ECMAScript; all of them are truthy. */
  predicate IsInherited(key: string) {
    IsObjectProperty(key) || IsLegacyProperty(key)
  }

  predicate IsObjectProperty(key: string) {
    key in {"constructor", "hasOwnProperty", "isPrototypeOf", "propertyIsEnumerable",
            "toLocaleString", "toString", "valueOf"}
  }

  /** Those of Annex B. */
  predicate IsLegacyProperty(key: string) {
    key in {"__proto__", "__defineGetter__", "__defineSetter__", "__lookupGetter__", "__lookupSetter__"}
  }

  function KindByPrefix(prefix: string): Option<Kind> {
    if prefix == "models" then Some(Model)
    else if prefix == "datasets" then Some(Dataset)
    else if IsInherited(prefix) then Some(Inherited(prefix))
    else None
  }

  function ParseRepoDirName(dirName: string): Option<Repo> {
    var parts := Parts(dirName);
    if |parts| < 2 then None
    else
      var kind := KindByPrefix(parts[0]);
      if kind.None? || "" in parts[1..] then None
      else Some(Repo(kind.value, Joined(parts[1..], "/")))
  }

  function Prefix(kind: Kind): string
    requires !kind.Inherited?
  {
    if kind.Model? then "models" else "datasets"
  }

  function DirName(kind: Kind, repoId: string): string
    requires !kind.Inherited?
  {
    Prefix(kind) + "--" + Joined(Segments(repoId), "--")
  }

  predicate IsSafeRepoId(repoId: string) {
    var segments := Segments(repoId);
    |segments| <= 2 && forall i :: 0 <= i < |segments| ==> IsSafeSegment(segments[i])
  }

  predicate IsSafeSegment(s: string) {
    && s != "" && s != "." && s != ".."
    && forall i :: 0 <= i < |s| ==>
         'A' <= s[i] <= 'Z' || 'a' <= s[i] <= 'z' || '0' <= s[i] <= '9' || s[i] == '.' || s[i] == '_' || s[i] == '-'
  }

  predicate IsTwoSafeSegments(repoId: string, slash: nat) {
    && slash < |repoId| && repoId[slash] == '/'
    && IsSafeSegment(repoId[..slash]) && IsSafeSegment(repoId[slash + 1..])
  }

  lemma SafeSegmentHasNoSlash(s: string)
    requires IsSafeSegment(s)
    ensures '/' !in s
  {
  }

  /** A legal segment by character codes: digits, letters, dot, underscore and dash, and not just dots. */
  lemma SafeSegmentPlainly(s: string)
    ensures IsSafeSegment(s) <==>
              && 1 <= |s| && !(|s| == 1 && s[0] as int == 46) && !(|s| == 2 && s[0] as int == 46 && s[1] as int == 46)
              && forall i :: 0 <= i < |s| ==>
                   var code := s[i] as int;
                   48 <= code <= 57 || 65 <= code <= 90 || 97 <= code <= 122 || code == 46 || code == 95 || code == 45
  {
    assert "." == ['.'] && ".." == ['.', '.'];
    assert |s| == 1 ==> (s == "." <==> s[0] == '.');
    assert |s| == 2 ==> (s == ".." <==> s[0] == '.' && s[1] == '.');
  }

  /** Safe ids are one legal segment, or two around one slash. */
  lemma SafeRepoIdIff(repoId: string)
    ensures IsSafeRepoId(repoId)
       <==> IsSafeSegment(repoId) || exists slash: nat :: IsTwoSafeSegments(repoId, slash)
  {
    hide IsSafeSegment, Segments;
    JoinedSegments(repoId);
    var segments := Segments(repoId);
    if |segments| == 2 {
      var a, b := segments[0], segments[1];
      assert repoId == a + "/" + b;
      assert repoId[..|a|] == a && repoId[|a| + 1..] == b;
      assert IsSafeRepoId(repoId) ==> IsTwoSafeSegments(repoId, |a|);
    }
    if IsSafeSegment(repoId) {
      SafeSegmentHasNoSlash(repoId);
      SegmentFront(repoId, "");
    }
    forall slash: nat | IsTwoSafeSegments(repoId, slash)
      ensures IsSafeRepoId(repoId)
    {
      var a, b := repoId[..slash], repoId[slash + 1..];
      SafeSegmentHasNoSlash(a);
      SafeSegmentHasNoSlash(b);
      TwoSegments(a, b);
      assert a + "/" + b == repoId;
    }
  }

  /** The repository ids that a directory name can carry. */
  predicate Encodable(repoId: string) {
    "" !in Segments(repoId) && Separable(Segments(repoId))
  }

  lemma PrefixPart(kind: Kind, rest: string)
    requires !kind.Inherited?
    ensures Parts(Prefix(kind) + "--" + rest) == [Prefix(kind)] + Parts(rest)
  {
    PartFront(Prefix(kind), rest);
  }

  /** Parsing a cache directory and naming it again finds the same directory. */
  lemma EncodeAfterDecode(dirName: string)
    requires '/' !in dirName
    ensures var parsed := ParseRepoDirName(dirName);
      parsed.Some? && !parsed.value.kind.Inherited? ==>
        DirName(parsed.value.kind, parsed.value.repoId) == dirName && Encodable(parsed.value.repoId)
  {
    var parsed := ParseRepoDirName(dirName);
    if parsed.Some? && !parsed.value.kind.Inherited? {
      var parts := Parts(dirName);
      JoinedParts(dirName);
      PartsOfSlashFree(dirName);
      PartsAreSeparable(dirName);
      SegmentsOfJoined(parts[1..]);
      assert parts[0] == Prefix(parsed.value.kind);
    }
  }

  lemma ParsedDirName(kind: Kind, repoId: string)
    requires !kind.Inherited?
    ensures var parts := Parts(Joined(Segments(repoId), "--"));
      ParseRepoDirName(DirName(kind, repoId)) == if "" in parts then None else Some(Repo(kind, Joined(parts, "/")))
  {
    hide Parts, Segments, Joined;
    var parts := Parts(Joined(Segments(repoId), "--"));
    PrefixPart(kind, Joined(Segments(repoId), "--"));
    assert ([Prefix(kind)] + parts)[1..] == parts;
  }

  /** Rejoined segments split as they were exactly when they are separable, and any other split joins
      to a different id. */
  lemma SegmentsComeBackIff(segments: seq<string>)
    requires segments != [] && SlashFree(segments)
    ensures var parts := Parts(Joined(segments, "--"));
      && (parts == segments <==> Separable(segments))
      && (Joined(parts, "/") == Joined(segments, "/") <==> parts == segments)
  {
    hide Parts, Segments, Joined, Separable;
    var body := Joined(segments, "--");
    JoinedSlashFree(segments);
    PartsOfSlashFree(body);
    PartsAreSeparable(body);
    SegmentsOfJoined(Parts(body));
    SegmentsOfJoined(segments);
    if Separable(segments) {
      PartsOfSeparable(segments);
    }
  }

  /** Parsing what was encoded gives the id back exactly when its segments are separable. */
  lemma DecodeAfterEncode(kind: Kind, repoId: string)
    requires !kind.Inherited?
    ensures ParseRepoDirName(DirName(kind, repoId)) == Some(Repo(kind, repoId)) <==> Encodable(repoId)
  {
    hide ParseRepoDirName, DirName, Parts, Segments, Joined, Separable;
    JoinedSegments(repoId);
    ParsedDirName(kind, repoId);
    SegmentsComeBackIff(Segments(repoId));
  }

  /** Whatever the id, the name is one path component, and not a relative one. */
  lemma DirNameIsOneComponent(kind: Kind, repoId: string)
    requires !kind.Inherited?
    ensures '/' !in DirName(kind, repoId) && DirName(kind, repoId)[0] != '.'
  {
    JoinedSegments(repoId);
    JoinedSlashFree(Segments(repoId));
  }

  lemma DirNameIsInjective(kind: Kind, repoId: string, otherKind: Kind, otherId: string)
    requires !kind.Inherited? && !otherKind.Inherited? && Encodable(repoId) && Encodable(otherId)
    requires DirName(kind, repoId) == DirName(otherKind, otherId)
    ensures kind == otherKind && repoId == otherId
  {
    DecodeAfterEncode(kind, repoId);
    DecodeAfterEncode(otherKind, otherId);
  }

  lemma TwoSegments(x: string, y: string)
    requires '/' !in x && '/' !in y
    ensures Segments(x + "/" + y) == [x, y]
    ensures Joined([x, y], "/") == x + "/" + y && Joined([x, y], "--") == x + "--" + y
  {
    hide Segments;
    SegmentFront(x, y);
    SegmentFront(y, "");
    assert [x, y][1..] == [y];
  }

  /** Names in full: the kind in the plural, and the segments, joined by double dashes. */
  lemma DirNamePlainly(org: string, name: string)
    requires '/' !in org && '/' !in name
    ensures DirName(Model, name) == "models" + "--" + name
    ensures DirName(Dataset, name) == "datasets" + "--" + name
    ensures DirName(Model, org + "/" + name) == "models" + "--" + (org + "--" + name)
    ensures DirName(Dataset, org + "/" + name) == "datasets" + "--" + (org + "--" + name)
  {
    hide Segments;
    SegmentFront(name, "");
    TwoSegments(org, name);
  }

  lemma TwoParts(x: string, y: string)
    requires NoDouble(x) && !EndsInDash(x) && NoDouble(y)
    ensures Parts(x + "--" + y) == [x, y]
  {
    hide Parts;
    PartFront(x, y);
    PartFront(y, "");
  }

  /** The deletion check admits ids that no directory name carries, so it can name another repository. */
  lemma SafeIdsCanCollide(kind: Kind)
    requires !kind.Inherited?
    ensures IsSafeRepoId("a--b") && IsSafeRepoId("a/b")
    ensures DirName(kind, "a--b") == DirName(kind, "a/b")
    ensures ParseRepoDirName(DirName(kind, "a--b")) == Some(Repo(kind, "a/b"))
  {
    hide Segments, ParseRepoDirName, Joined, Parts;
    TwoSegments("a", "b");
    SegmentFront("a--b", "");
    assert "a" + "/" + "b" == "a/b" && "a" + "--" + "b" == "a--b";
    JoinedOne("a--b", "--");
    DecodeAfterEncode(kind, "a/b");
  }

  /** The name is an inherited key, the separator, and a rest that splits without empty parts. */
  predicate HasInheritedPrefix(dirName: string, key: string) {
    && IsInherited(key) && |dirName| >= |key| + 2
    && dirName[..|key|] == key && dirName[|key|..|key| + 2] == "--"
    && "" !in Parts(dirName[|key| + 2..])
  }

  predicate DashFree(s: string) {
    forall i :: 0 <= i < |s| ==> s[i] != '-'
  }

  lemma InheritedKeysAreDashFree(key: string)
    requires IsInherited(key)
    ensures DashFree(key)
  {
    hide *;
    InheritedKeyKinds(key);
    if IsObjectProperty(key) {
      ObjectPropertyIsDashFree(key);
    } else {
      LegacyPropertyIsDashFree(key);
    }
  }

  lemma InheritedKeyKinds(key: string)
    ensures IsInherited(key) <==> IsObjectProperty(key) || IsLegacyProperty(key)
  {
    hide IsObjectProperty, IsLegacyProperty;
  }

  lemma ObjectPropertyIsDashFree(key: string)
    requires IsObjectProperty(key)
    ensures DashFree(key)
  {
  }

  lemma LegacyPropertyIsDashFree(key: string)
    requires IsLegacyProperty(key)
    ensures DashFree(key)
  {
  }

  lemma DashFreePart(key: string, rest: string)
    requires DashFree(key)
    ensures Parts(key + "--" + rest) == [key] + Parts(rest)
  {
    PartFront(key, rest);
  }

  lemma FirstOfParts(s: string)
    requires |Parts(s)| >= 2
    ensures var key := Parts(s)[0];
      s == key + "--" + Joined(Parts(s)[1..], "--")
  {
    JoinedParts(s);
  }

  lemma AfterPrefix(dirName: string, key: string, rest: string)
    requires dirName == key + "--" + rest
    ensures |dirName| >= |key| + 2 && dirName[..|key|] == key && dirName[|key|..|key| + 2] == "--" && dirName[|key| + 2..] == rest
  {
  }

  /** A directory name parses to something that is no kind exactly when it starts with an inherited key. */
  lemma NonKindParsesIff(dirName: string)
    ensures var parsed := ParseRepoDirName(dirName);
      parsed.Some? && parsed.value.kind.Inherited? <==> exists key :: HasInheritedPrefix(dirName, key)
  {
    hide IsInherited, Joined, Parts;
    var parsed := ParseRepoDirName(dirName);
    ListedKeysAreNotInherited();
    if parsed.Some? && parsed.value.kind.Inherited? {
      var key, rest := Parts(dirName)[0], Joined(Parts(dirName)[1..], "--");
      FirstOfParts(dirName);
      AfterPrefix(dirName, key, rest);
      InheritedKeysAreDashFree(key);
      DashFreePart(key, rest);
      assert ([key] + Parts(rest))[1..] == Parts(rest);
      assert HasInheritedPrefix(dirName, key);
    }
    forall key | HasInheritedPrefix(dirName, key)
      ensures parsed.Some? && parsed.value.kind.Inherited?
    {
      var rest := dirName[|key| + 2..];
      assert dirName == key + "--" + rest;
      InheritedKeysAreDashFree(key);
      DashFreePart(key, rest);
      assert ([key] + Parts(rest))[1..] == Parts(rest);
    }
  }

  lemma ListedKeysAreNotInherited()
    ensures !IsInherited("models") && !IsInherited("datasets")
  {
    assert |"models"| == 6 && |"datasets"| == 8 && "toString"[0] == 't';
  }

  lemma InheritedPrefixParses()
    ensures ParseRepoDirName("valueOf--x") == Some(Repo(Inherited("valueOf"), "x"))
  {
    hide Parts;
    TwoParts("valueOf", "x");
    assert "valueOf" + "--" + "x" == "valueOf--x";
    assert ["valueOf", "x"][1..] == ["x"];
  }
}
