/**
 File-name handling of the embedding generators: the player name derived from an
 image file name, the file name taken from a path, and the initial catalog built from
 the image paths found under `/public/images`.
 */
module PlayerNames {
  import opened Players

  /** The image URL prefix the catalog uses. */
  const ImagesPrefix: string := "/images/"

  /** ASCII lower-casing. A case-insensitive JavaScript regular expression without the
      `u` flag folds only ASCII letters onto the letters of `jpeg`/`jpg`, so this is
      all the case folding the extension match needs. */
  function LowerAscii(c: char): char {
    if 'A' <= c <= 'Z' then (c as int + 32) as char else c
  }

  /** s ends with the lower-case suffix, ignoring ASCII case. */
  predicate EndsWithIgnoringCase(s: string, suffix: string) {
    |suffix| <= |s| && forall i :: 0 <= i < |suffix| ==> LowerAscii(s[|s| - |suffix| + i]) == suffix[i]
  }

  predicate HasImageExtension(s: string) {
    EndsWithIgnoringCase(s, ".jpeg") || EndsWithIgnoringCase(s, ".jpg")
  }

  /** `replace(/\.(jpeg|jpg)$/i, '')`: one trailing `.jpeg` or `.jpg`, in any case, is
      removed. The two alternatives cannot both match at the end of a string. */
  function StripImageExtension(fileName: string): (r: string)
    ensures r <= fileName
    ensures r == fileName <==> !HasImageExtension(fileName)
    ensures |fileName| - |r| == if EndsWithIgnoringCase(fileName, ".jpeg") then 5
                                else if EndsWithIgnoringCase(fileName, ".jpg") then 4
                                else 0
  {
    if EndsWithIgnoringCase(fileName, ".jpeg") then fileName[..|fileName| - 5]
    else if EndsWithIgnoringCase(fileName, ".jpg") then fileName[..|fileName| - 4]
    else fileName
  }

  /** A string ends with whatever was appended to it last. */
  lemma EndsWithAppended(base: string, ext: string, suffix: string)
    requires |ext| == |suffix| && EndsWithIgnoringCase(ext, suffix)
    ensures EndsWithIgnoringCase(base + ext, suffix)
  {
    var s := base + ext;
    forall i | 0 <= i < |suffix|
      ensures LowerAscii(s[|s| - |suffix| + i]) == suffix[i]
    {
      assert s[|base| + i] == ext[i];
    }
  }

  /** Stripping undoes appending an image extension written in any case. */
  lemma StripAppendedExtension(base: string, ext: string)
    requires || (|ext| == 5 && EndsWithIgnoringCase(ext, ".jpeg"))
             || (|ext| == 4 && EndsWithIgnoringCase(ext, ".jpg"))
    ensures StripImageExtension(base + ext) == base
  {
    var s := base + ext;
    if |ext| == 5 {
      EndsWithAppended(base, ext, ".jpeg");
    } else {
      EndsWithAppended(base, ext, ".jpg");
      NotJpegAfterJpg(s);
    }
    assert s[..|base|] == base;
  }

  /** A name ending in `.jpg` does not also end in `.jpeg`. */
  lemma NotJpegAfterJpg(s: string)
    requires EndsWithIgnoringCase(s, ".jpg")
    ensures !EndsWithIgnoringCase(s, ".jpeg")
  {
    assert ".jpg"[1] == 'j' && ".jpeg"[2] == 'p';
    assert LowerAscii(s[|s| - 4 + 1]) == 'j';
  }

  /** `replace(/-/g, ' ')`. */
  function DashesToSpaces(s: string): (r: string)
    ensures |r| == |s|
    ensures forall i :: 0 <= i < |s| ==> r[i] == if s[i] == '-' then ' ' else s[i]
  {
    if |s| == 0 then []
    else [if s[0] == '-' then ' ' else s[0]] + DashesToSpaces(s[1..])
  }

  /** `formatPlayerName`: drop the image extension, then turn dashes into spaces. */
  function FormatPlayerName(fileName: string): (r: string)
    ensures |r| == |StripImageExtension(fileName)|
    ensures '-' !in r
    ensures forall i :: 0 <= i < |r| && fileName[i] != '-' ==> r[i] == fileName[i]
  {
    DashesToSpaces(StripImageExtension(fileName))
  }

  /** A name with no dash and no image extension is left as it is. */
  lemma FormatPlayerNameFixed(name: string)
    requires '-' !in name && !HasImageExtension(name)
    ensures FormatPlayerName(name) == name
  {
  }

  /** `path.split('/').pop() || ''`: the text after the last slash (all of it when
      there is none; the empty string when the path ends with a slash). */
  function LastSegment(path: string): string {
    if |path| == 0 then []
    else if path[|path| - 1] == '/' then []
    else LastSegment(path[..|path| - 1]) + [path[|path| - 1]]
  }

  /** The last segment is the longest slash-free suffix: a suffix of the path with no
      slash, preceded by a slash unless it is the whole path. */
  lemma {:induction false} LastSegmentShape(path: string)
    ensures var r := LastSegment(path);
            && |r| <= |path|
            && path[|path| - |r|..] == r
            && '/' !in r
            && (|r| < |path| ==> path[|path| - |r| - 1] == '/')
  {
    if |path| > 0 && path[|path| - 1] != '/' {
      var init, c := path[..|path| - 1], path[|path| - 1];
      LastSegmentShape(init);
      var r0 := LastSegment(init);
      var r := r0 + [c];
      assert LastSegment(path) == r;
      assert path == init + [c];
      assert path[|path| - |r|..] == init[|init| - |r0|..] + [c];
      assert '/' !in r by {
        assert forall x :: x in r ==> x in r0 || x == c;
      }
      if |r| < |path| {
        assert path[|path| - |r| - 1] == init[|init| - |r0| - 1];
      }
    }
  }

  /** Joining a directory and a slash-free name and splitting again gives the name. */
  lemma {:induction false} LastSegmentOfJoin(dir: string, name: string)
    requires '/' !in name
    ensures LastSegment(dir + "/" + name) == name
    decreases |name|
  {
    var s := dir + "/" + name;
    if |name| == 0 {
      assert s[|s| - 1] == '/';
    } else {
      var init := name[..|name| - 1];
      assert s[..|s| - 1] == dir + "/" + init;
      assert s[|s| - 1] == name[|name| - 1];
      LastSegmentOfJoin(dir, init);
      assert init + [name[|name| - 1]] == name;
    }
  }

  /** The file name of an image URL under `/images/`. */
  lemma LastSegmentUnderImages(fileName: string)
    requires '/' !in fileName
    ensures LastSegment(ImagesPrefix + fileName) == fileName
  {
    LastSegmentOfJoin("/images", fileName);
    assert ImagesPrefix + fileName == "/images" + "/" + fileName;
  }

  /** The non-empty file names of the found image paths, in order. */
  function FileNames(paths: seq<string>): (names: seq<string>)
    ensures |names| <= |paths|
    ensures forall i :: 0 <= i < |names| ==> names[i] != "" && '/' !in names[i]
  {
    if |paths| == 0 then []
    else
      LastSegmentShape(paths[0]);
      var f := LastSegment(paths[0]);
      (if f != "" then [f] else []) + FileNames(paths[1..])
  }

  /** The file names of two lists of paths found one after the other are the file
      names of the first followed by those of the second: `FileNames` keeps the
      paths' order. */
  lemma {:induction false} FileNamesAppend(a: seq<string>, b: seq<string>)
    ensures FileNames(a + b) == FileNames(a) + FileNames(b)
  {
    if |a| > 0 {
      assert (a + b)[0] == a[0];
      assert (a + b)[1..] == a[1..] + b;
      FileNamesAppend(a[1..], b);
      var head := if LastSegment(a[0]) != "" then [LastSegment(a[0])] else [];
      assert FileNames(a + b) == head + (FileNames(a[1..]) + FileNames(b));
      assert head + (FileNames(a[1..]) + FileNames(b)) == (head + FileNames(a[1..])) + FileNames(b);
    } else {
      assert a + b == b;
    }
  }

  /** A name is listed exactly when it is the non-empty last segment of some path. */
  lemma {:induction false} FileNamesMembers(paths: seq<string>)
    ensures forall f :: f in FileNames(paths) <==> exists p :: p in paths && LastSegment(p) == f && f != ""
  {
    if |paths| > 0 {
      var rest := paths[1..];
      FileNamesMembers(rest);
      var head := if LastSegment(paths[0]) != "" then [LastSegment(paths[0])] else [];
      assert FileNames(paths) == head + FileNames(rest);
      forall f
        ensures f in FileNames(paths) <==> exists p :: p in paths && LastSegment(p) == f && f != ""
      {
        if f in FileNames(rest) {
          var p :| p in rest && LastSegment(p) == f && f != "";
          assert p in paths;
        }
        if exists p :: p in paths && LastSegment(p) == f && f != "" {
          var p :| p in paths && LastSegment(p) == f && f != "";
          if p != paths[0] {
            assert p in rest;
          }
        }
      }
    }
  }

  /** The catalog entry for image file f: name derived from the file name, no team, no
      descriptor. The identifier is random in the source and is a parameter here. */
  function InitialPlayer(id: string, fileName: string): Player {
    Player(id, FormatPlayerName(fileName), "", ImagesPrefix + fileName, None)
  }

  /** `loadImagesFromPublic`: one fresh player per non-empty file name. */
  function InitialPlayers(paths: seq<string>, ids: seq<string>): (players: seq<Player>)
    requires |ids| == |FileNames(paths)|
    ensures |players| == |FileNames(paths)|
    ensures forall i :: 0 <= i < |players| ==>
              && players[i].id == ids[i]
              && players[i].imageUrl == ImagesPrefix + FileNames(paths)[i]
              && LastSegment(players[i].imageUrl) == FileNames(paths)[i]
              && players[i].name == FormatPlayerName(LastSegment(players[i].imageUrl))
              && players[i].team == ""
              && players[i].descriptor == None
              && !IsComplete(players[i])
  {
    var names := FileNames(paths);
    forall i | 0 <= i < |names| {
      LastSegmentUnderImages(names[i]);
    }
    seq(|names|, i requires 0 <= i < |names| => InitialPlayer(ids[i], names[i]))
  }

  /** The URL a processed player is stored under: the file name moved under
      `/images/`. */
  function ProcessedImageUrl(imageUrl: string): string {
    ImagesPrefix + LastSegment(imageUrl)
  }

  /** For a player of the initial catalog the stored URL is the URL it already had. */
  lemma ProcessedImageUrlFixed(fileName: string)
    requires '/' !in fileName
    ensures ProcessedImageUrl(ImagesPrefix + fileName) == ImagesPrefix + fileName
  {
    LastSegmentUnderImages(fileName);
  }

  /** Moving a URL under `/images/` is idempotent. */
  lemma ProcessedImageUrlIdempotent(imageUrl: string)
    ensures ProcessedImageUrl(ProcessedImageUrl(imageUrl)) == ProcessedImageUrl(imageUrl)
  {
    LastSegmentShape(imageUrl);
    ProcessedImageUrlFixed(LastSegment(imageUrl));
  }
}
