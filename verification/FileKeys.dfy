/** The key of a stored file, and how the Cloudinary adapter takes it apart again. */
module FileKeys {
  import opened Wrappers
  import Text

  const SLASH := '/'
  const DOT := '.'

  // ---------- split and join ----------

  /** `s.split(sep)`. */
  function Split(s: string, sep: char): (parts: seq<string>)
    ensures |parts| >= 1
  {
    if s == "" then [""]
    else
      var rest := Split(s[1..], sep);
      if s[0] == sep then [""] + rest else [[s[0]] + rest[0]] + rest[1..]
  }

  /** `parts.join(sep)`. */
  function Join(parts: seq<string>, sep: char): string {
    if parts == [] then ""
    else if |parts| == 1 then parts[0]
    else parts[0] + [sep] + Join(parts[1..], sep)
  }

  lemma {:induction false} JoinInvertsSplit(s: string, sep: char)
    ensures Join(Split(s, sep), sep) == s
  {
    if s != "" {
      JoinInvertsSplit(s[1..], sep);
      var rest := Split(s[1..], sep);
      if s[0] == sep {
        assert Join([""] + rest, sep) == "" + [sep] + Join(rest, sep);
      } else if |rest| > 1 {
        assert [[s[0]] + rest[0]] + rest[1..] != [] && ([[s[0]] + rest[0]] + rest[1..])[1..] == rest[1..];
      }
    }
  }

  lemma {:induction false} SplitPlain(s: string, sep: char)
    requires sep !in s
    ensures Split(s, sep) == [s]
  {
    if s != "" {
      SplitPlain(s[1..], sep);
      assert s == [s[0]] + s[1..];
    }
  }

  /** The last separator cuts the string: what follows it is the last part. */
  lemma {:induction false} SplitAtLast(head: string, tail: string, sep: char)
    requires sep !in tail
    ensures Split(head + [sep] + tail, sep) == Split(head, sep) + [tail]
  {
    if head == "" {
      assert (head + [sep] + tail)[1..] == tail;
      SplitPlain(tail, sep);
    } else {
      assert (head + [sep] + tail)[1..] == head[1..] + [sep] + tail;
      SplitAtLast(head[1..], tail, sep);
    }
  }

  // ---------- the extension of a file name ----------

  /** The position of the last occurrence of a character, if there is one. */
  function LastIndex(s: string, c: char): (r: Option<nat>)
    ensures r.None? <==> c !in s
    ensures r.Some? ==> r.value < |s| && s[r.value] == c && forall i | r.value < i < |s| :: s[i] != c
  {
    if s == "" then None
    else if s[|s| - 1] == c then Some(|s| - 1)
    else
      assert s == s[..|s| - 1] + [s[|s| - 1]];
      LastIndex(s[..|s| - 1], c)
  }

  function WithoutTrailingSlashes(s: string): (r: string)
    ensures r == "" || r[|r| - 1] != SLASH
  {
    if s != "" && s[|s| - 1] == SLASH then WithoutTrailingSlashes(s[..|s| - 1]) else s
  }

  function BaseName(path: string): (r: string)
    ensures SLASH !in r
  {
    var p := WithoutTrailingSlashes(path);
    var i := LastIndex(p, SLASH);
    if i.None? then p else p[i.value + 1..]
  }

  /** Node's `extname`: from the last dot of the base name, unless the name starts there or is "..". */
  function ExtName(path: string): (r: string)
    ensures r == "" || (r[0] == DOT && DOT !in r[1..] && SLASH !in r)
  {
    var name := BaseName(path);
    var i := LastIndex(name, DOT);
    if i.None? || i.value == 0 || name == ".." then "" else name[i.value..]
  }

  // ---------- building the key ----------

  function Extension(originalName: string): string {
    var ext := Text.ToLowerCase(ExtName(originalName));
    if ext == "" then ".bin" else ext
  }

  function GenerateFileKey(originalName: string, userId: string, context: string, uniqueId: string): string {
    context + [SLASH] + userId + [SLASH] + uniqueId + Extension(originalName)
  }

  /** The extension is a dot and then no further dot or slash. */
  lemma {:induction false} ExtensionShape(originalName: string)
    ensures
      var ext := Extension(originalName);
      ext != "" && ext[0] == DOT && DOT !in ext[1..] && SLASH !in ext
  {
    LoweredShape(ExtName(originalName));
  }

  lemma LoweredShape(raw: string)
    requires raw != "" ==> raw[0] == DOT && DOT !in raw[1..] && SLASH !in raw
    ensures
      var ext := Text.ToLowerCase(raw);
      raw != "" ==> ext != "" && ext[0] == DOT && DOT !in ext[1..] && SLASH !in ext
  {
    if raw != "" {
      LowerKeeps(raw, SLASH);
      LowerKeeps(raw[1..], DOT);
      assert Text.ToLowerCase(raw)[1..] == Text.ToLowerCase(raw[1..]);
    }
  }

  /** Lower-casing brings in no character that is not a letter. */
  lemma LowerKeeps(s: string, c: char)
    requires c == SLASH || c == DOT
    ensures c in Text.ToLowerCase(s) ==> c in s
  {
    var t := Text.ToLowerCase(s);
    if c in t {
      var i :| 0 <= i < |t| && t[i] == c;
      assert t[i] == Text.LowerChar(s[i]);
    }
  }

  lemma EndsWithoutSlash(s: string)
    requires s != "" && s[|s| - 1] != SLASH
    ensures WithoutTrailingSlashes(s) == s
  {
  }

  /** The base name of a path ends as the path does, as far as there is no slash. */
  lemma BaseOfNamed(stem: string, ending: string)
    requires SLASH !in ending && ending != ""
    ensures
      var name := BaseName(stem + ending);
      && |ending| <= |name| && name[|name| - |ending|..] == ending
      && (stem == "" || stem[|stem| - 1] == SLASH ==> name == ending)
      && (stem != "" && stem[|stem| - 1] != SLASH ==> |name| > |ending|)
  {
    var path := stem + ending;
    EndsWithoutSlash(path);
    var i := LastIndex(path, SLASH);
    assert forall j | |stem| <= j < |path| :: path[j] == ending[j - |stem|];
    if stem != "" && stem[|stem| - 1] == SLASH { assert path[|stem| - 1] == SLASH; }
  }

  lemma {:induction false} LastIndexIs(s: string, c: char, at: nat)
    requires at < |s| && s[at] == c && forall j | at < j < |s| :: s[j] != c
    ensures LastIndex(s, c) == Some(at)
  {
  }

  lemma {:induction false} EndsIn(name: string, ending: string, j: nat)
    requires |ending| <= |name| && name[|name| - |ending|..] == ending && j < |ending|
    ensures name[|name| - |ending| + j] == ending[j]
  {
  }

  lemma {:induction false} LastDotOf(name: string, tail: string)
    requires DOT !in tail && |name| > |tail| && name[|name| - |tail| - 1..] == [DOT] + tail
    ensures LastIndex(name, DOT) == Some(|name| - |tail| - 1)
  {
    var at := |name| - |tail| - 1;
    EndsIn(name, [DOT] + tail, 0);
    forall j | at < j < |name| ensures name[j] != DOT {
      EndsIn(name, [DOT] + tail, j - at);
      assert ([DOT] + tail)[j - at] == tail[j - at - 1];
    }
    LastIndexIs(name, DOT, at);
  }

  lemma LoweredEnding(tail: string)
    ensures Text.ToLowerCase([DOT] + tail) == [DOT] + Text.ToLowerCase(tail)
  {
  }

  /** The extension of a name whose base name is some characters, a dot, and more without a dot. */
  lemma {:induction false} ExtensionFromBase(path: string, tail: string)
    requires DOT !in tail && tail != ""
    requires
      var name := BaseName(path);
      |name| > |tail| + 1 && name[|name| - |tail| - 1..] == [DOT] + tail
    ensures Extension(path) == [DOT] + Text.ToLowerCase(tail)
  {
    var name := BaseName(path);
    LastDotOf(name, tail);
    assert |name| > 2;
    LoweredEnding(tail);
  }

  lemma NoExtensionFromBase(path: string)
    requires
      var name := BaseName(path);
      DOT !in name || (name != "" && name[0] == DOT && DOT !in name[1..])
    ensures Extension(path) == ".bin"
  {
    var name := BaseName(path);
    if DOT in name {
      assert forall j | 0 < j < |name| :: name[j] == name[1..][j - 1];
      assert LastIndex(name, DOT) == Some(0);
    }
  }

  lemma {:induction false} NamedExtension(stem: string, tail: string)
    requires SLASH !in tail && DOT !in tail && tail != "" && stem != "" && stem[|stem| - 1] != SLASH
    ensures Extension(stem + [DOT] + tail) == [DOT] + Text.ToLowerCase(tail)
  {
    assert stem + [DOT] + tail == stem + ([DOT] + tail);
    BaseOfNamed(stem, [DOT] + tail);
    ExtensionFromBase(stem + [DOT] + tail, tail);
  }

  lemma {:induction false} NoDotAtAll(stem: string, tail: string)
    requires SLASH !in tail && DOT !in tail && tail != "" && (stem == "" || stem[|stem| - 1] == SLASH)
    ensures Extension(stem + tail) == ".bin"
  {
    BaseOfNamed(stem, tail);
    NoExtensionFromBase(stem + tail);
  }

  lemma {:induction false} OnlyAnEnding(tail: string)
    requires SLASH !in tail && DOT !in tail
    ensures Extension([DOT] + tail) == ".bin"
  {
    assert "" + ([DOT] + tail) == [DOT] + tail;
    BaseOfNamed("", [DOT] + tail);
    NoExtensionFromBase([DOT] + tail);
  }

  /** The letters A to Z in lower case, everything else as it was. */
  predicate IsLowered(lowered: string, s: string) {
    && |lowered| == |s|
    && forall i | 0 <= i < |s| ::
         lowered[i] as int == if 65 <= s[i] as int <= 90 then s[i] as int + 32 else s[i] as int
  }

  lemma DotAndLowered(tail: string)
    ensures
      var ext := [DOT] + Text.ToLowerCase(tail);
      ext != "" && ext[0] == DOT && IsLowered(ext[1..], tail)
  {
    assert ([DOT] + Text.ToLowerCase(tail))[1..] == Text.ToLowerCase(tail);
  }

  /** A file name that ends in a dot and some more characters keeps these, in lower case; one without a dot,
      and one that is only such an ending, get the default. */
  lemma {:induction false} ExtensionOf(stem: string, tail: string)
    requires SLASH !in tail && DOT !in tail && tail != ""
    ensures stem != "" && stem[|stem| - 1] != SLASH ==>
      var ext := Extension(stem + [DOT] + tail);
      ext != "" && ext[0] == DOT && IsLowered(ext[1..], tail)
    ensures Extension([DOT] + tail) == ".bin"
    ensures stem == "" || stem[|stem| - 1] == SLASH ==> Extension(stem + tail) == ".bin"
  {
    if stem != "" && stem[|stem| - 1] != SLASH {
      NamedExtension(stem, tail);
      DotAndLowered(tail);
    } else {
      NoDotAtAll(stem, tail);
    }
    OnlyAnEnding(tail);
  }

  // ---------- taking it apart ----------

  /** The key is a path in a folder: what follows its last slash is the file name. */
  predicate IsPath(fileKey: string, folder: string, name: string) {
    fileKey == folder + [SLASH] + name && SLASH !in name
  }

  /** What follows the last dot of a file name is its extension. */
  predicate IsNamed(name: string, stem: string, ext: string) {
    name == stem + [DOT] + ext && DOT !in ext
  }

  /** Folder and public id are what the path and the name say, however the key is taken apart. */
  ghost predicate IsTarget(fileKey: string, folder: string, publicId: string) {
    && (forall head, name | IsPath(fileKey, head, name) :: folder == if head == "" then "general" else head)
    && (forall head, name, stem, ext | IsPath(fileKey, head, name) && IsNamed(name, stem, ext) :: publicId == stem)
  }

  /** The folder and public id that the adapter uploads to: it pops the file name off the path parts, joins
      what is left, and drops what follows the last dot of the name. */
  method UploadTarget(fileKey: string) returns (folder: string, publicId: string)
    ensures IsTarget(fileKey, folder, publicId)
    ensures SLASH !in fileKey ==> folder == "general"
    ensures forall head, name | IsPath(fileKey, head, name) && DOT !in name :: publicId == ""
  {
    var pathParts := Split(fileKey, SLASH);
    var filenameWithExt := pathParts[|pathParts| - 1];
    pathParts := pathParts[..|pathParts| - 1];
    folder := Join(pathParts, SLASH);
    if folder == "" {
      folder := "general";
    }
    var nameParts := Split(filenameWithExt, DOT);
    publicId := Join(nameParts[..|nameParts| - 1], DOT);

    if SLASH !in fileKey { SplitPlain(fileKey, SLASH); }
    forall head, name | IsPath(fileKey, head, name)
      ensures Join(pathParts, SLASH) == head && filenameWithExt == name
    {
      DroppingLastPart(head, name, SLASH);
    }
    forall stem, ext | IsNamed(filenameWithExt, stem, ext) ensures publicId == stem {
      DroppingLastPart(stem, ext, DOT);
    }
    if DOT !in filenameWithExt { SplitPlain(filenameWithExt, DOT); }
  }

  /** `split`, `pop` and `join` undo appending one part. */
  lemma DroppingLastPart(head: string, tail: string, sep: char)
    requires sep !in tail
    ensures
      var parts := Split(head + [sep] + tail, sep);
      parts[|parts| - 1] == tail && Join(parts[..|parts| - 1], sep) == head
  {
    SplitAtLast(head, tail, sep);
    JoinInvertsSplit(head, sep);
    assert (Split(head, sep) + [tail])[..|Split(head, sep)|] == Split(head, sep);
  }

  lemma Regroup(head: string, uniqueId: string, ext: string)
    requires ext != "" && ext[0] == DOT
    ensures head + [SLASH] + uniqueId + ext == head + [SLASH] + (uniqueId + ext)
    ensures uniqueId + ext == uniqueId + [DOT] + ext[1..]
  {
  }

  lemma TargetOf(fileKey: string, head: string, stem: string, ext: string, folder: string, publicId: string)
    requires head != "" && SLASH !in stem + ext && ext != "" && ext[0] == DOT && DOT !in ext[1..]
    requires fileKey == head + [SLASH] + stem + ext && IsTarget(fileKey, folder, publicId)
    ensures folder == head && publicId == stem
  {
    Regroup(head, stem, ext);
    assert IsPath(fileKey, head, stem + ext);
    assert IsNamed(stem + ext, stem, ext[1..]);
  }

  /** Round trip, for every original name, context and user: the adapter finds the folder `context/userId`
      and the generated id again, and with the extension they make up the key. */
  lemma KeyRoundTrip(originalName: string, userId: string, context: string, uniqueId: string,
                     folder: string, publicId: string)
    requires SLASH !in uniqueId
    requires IsTarget(GenerateFileKey(originalName, userId, context, uniqueId), folder, publicId)
    ensures folder == context + [SLASH] + userId
    ensures publicId == uniqueId
    ensures folder + [SLASH] + publicId + Extension(originalName)
         == GenerateFileKey(originalName, userId, context, uniqueId)
  {
    ExtensionShape(originalName);
    TargetOf(GenerateFileKey(originalName, userId, context, uniqueId), context + [SLASH] + userId, uniqueId,
             Extension(originalName), folder, publicId);
  }
}
