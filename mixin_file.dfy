/** `MixinFile` and the small constants beside it: the chat media directories,
    their message-category suffixes, the path of a chat directory or of a file
    in it, and the cleanup that deletes media files no message refers to. */
module MixinFile {
  import opened Optional
  import opened FileSystem

  /** `MixinFile.ChatDirectory`, a String-backed enum. */
  datatype ChatDirectory = Photos | Files | Videos | Audios {

    function RawValue(): string {
      match this
      case Photos => "Photos"
      case Files => "Files"
      case Videos => "Videos"
      case Audios => "Audios"
    }

    /** The `category` suffix of the messages whose media live in this directory. */
    function MessageCategorySuffix(): string {
      match this
      case Photos => "_IMAGE"
      case Files => "_DATA"
      case Videos => "_VIDEO"
      case Audios => "_AUDIO"
    }
  }

  /** Swift's synthesised `ChatDirectory(rawValue:)`. */
  function ChatDirectoryFromRawValue(s: string): (d: Option<ChatDirectory>)
    ensures d.Some? ==> d.value.RawValue() == s
  {
    if s == "Photos" then Some(Photos)
    else if s == "Files" then Some(Files)
    else if s == "Videos" then Some(Videos)
    else if s == "Audios" then Some(Audios)
    else None
  }

  lemma RawValueRoundTrip(d: ChatDirectory)
    ensures ChatDirectoryFromRawValue(d.RawValue()) == Some(d)
  {
  }

  /** The four suffixes tell the directories apart. */
  lemma MessageCategorySuffixInjective(a: ChatDirectory, b: ChatDirectory)
    ensures a.MessageCategorySuffix() == b.MessageCategorySuffix() <==> a == b
  {
  }

  /** `url(ofChatDirectory:filename:)` under the account's `root`:
      root/Chat/<raw value>, then the file name when one is given. */
  function ChatDirectoryUrl(root: Path, dir: ChatDirectory, filename: Option<string>): (p: Path)
    ensures |p| == |root| + 2 + (if filename.Some? then 1 else 0)
    ensures p[..|root|] == root && p[|root|] == "Chat" && p[|root| + 1] == dir.RawValue()
    ensures filename.Some? ==> p[|root| + 2] == filename.value
  {
    var url := root + ["Chat", dir.RawValue()];
    if filename.Some? then url + [filename.value] else url
  }

  /** Reads a path back as a chat directory and an optional file name. */
  function ParseChatDirectoryUrl(root: Path, p: Path): Option<(ChatDirectory, Option<string>)>
  {
    if |p| < |root| + 2 || p[..|root|] != root || p[|root|] != "Chat" then None
    else match ChatDirectoryFromRawValue(p[|root| + 1])
      case None => None
      case Some(d) =>
        if |p| == |root| + 2 then Some((d, None))
        else if |p| == |root| + 3 then Some((d, Some(p[|root| + 2])))
        else None
  }

  lemma ChatDirectoryUrlRoundTrip(root: Path, dir: ChatDirectory, filename: Option<string>)
    ensures ParseChatDirectoryUrl(root, ChatDirectoryUrl(root, dir, filename)) == Some((dir, filename))
  {
  }

  lemma ParseChatDirectoryUrlSound(root: Path, p: Path)
    ensures ParseChatDirectoryUrl(root, p).Some? ==>
              var (dir, filename) := ParseChatDirectoryUrl(root, p).value;
              ChatDirectoryUrl(root, dir, filename) == p
  {
  }

  /** A directory's files: the names `n` for which root/Chat/<dir>/n is a file. */
  function EntryUrl(root: Path, dir: ChatDirectory, name: string): Path {
    ChatDirectoryUrl(root, dir, Some(name))
  }

  /** A file name with everything from its last '.' removed: the model's
      stand-in for `NSString.deletingPathExtension`. */
  function Stem(s: string): (r: string)
    ensures r <= s
    ensures '.' !in s ==> r == s
    ensures '.' in s ==> |r| < |s| && s[|r|] == '.' && '.' !in s[|r| + 1..]
  {
    if '.' !in s then s
    else if s[|s| - 1] == '.' then s[..|s| - 1]
    else
      var r := Stem(s[..|s| - 1]);
      assert s[|r| + 1..] == s[..|s| - 1][|r| + 1..] + [s[|s| - 1]];
      r
  }

  /** `sub` occurs in `s` at some position. */
  predicate Occurs(sub: string, s: string)
    decreases |s|
  {
    sub <= s || (|s| > 0 && Occurs(sub, s[1..]))
  }

  /** Foundation's `String.contains(_:)`: an empty needle is never found. */
  predicate Contains(s: string, sub: string) {
    |sub| > 0 && Occurs(sub, s)
  }

  /** The cleanup rule for one on-disk file name, given the media URLs that
      messages of the directory's category refer to. */
  predicate Keeps(dir: ChatDirectory, referenced: seq<string>, name: string) {
    if dir == Videos then exists i :: 0 <= i < |referenced| && Contains(name, Stem(referenced[i]))
    else name in referenced
  }

  /** The entries `clean(chatDirectory:)` removes for a given listing: the
      listed names the rule does not keep, each directly inside the chat
      directory. */
  function Doomed(root: Path, dir: ChatDirectory, referenced: seq<string>, names: seq<string>): (r: set<Path>)
    ensures forall p :: p in r ==>
              && |p| == |root| + 3 && Under(ChatDirectoryUrl(root, dir, None), p)
              && p[|root| + 2] in names && !Keeps(dir, referenced, p[|root| + 2])
    ensures forall n :: n in names && !Keeps(dir, referenced, n) ==> EntryUrl(root, dir, n) in r
  {
    var r := set n | n in names && !Keeps(dir, referenced, n) :: EntryUrl(root, dir, n);
    assert forall n :: EntryUrl(root, dir, n)[..|root| + 2] == ChatDirectoryUrl(root, dir, None);
    r
  }

  /** The files `clean(chatDirectory:)` deletes: every doomed entry and, when
      the entry is a subdirectory, everything below it (`removeItem` is
      recursive), except the files that cannot be deleted. */
  function Swept(files: map<Path, Bytes>, root: Path, dir: ChatDirectory, referenced: seq<string>,
                 names: seq<string>, undeletable: set<Path>): (r: set<Path>)
    ensures forall p :: p in r ==> p in files && p !in undeletable && Under(ChatDirectoryUrl(root, dir, None), p)
  {
    var r := set p | p in files && p !in undeletable && |p| >= |root| + 3
                     && p[..|root| + 3] in Doomed(root, dir, referenced, names);
    assert forall p :: p in r ==> p[..|root| + 3][..|root| + 2] == p[..|root| + 2];
    r
  }

  /** The files after `clean(chatDirectory:)`, where `listing` is what
      `contentsOfDirectory(atPath:)` returned (None: it threw) and
      `undeletable` the files `removeItem` fails on: the cleanup only ever
      deletes files inside the chat directory, never adds or changes one. */
  function Cleaned(files: map<Path, Bytes>, root: Path, dir: ChatDirectory,
                   listing: Option<seq<string>>, referenced: seq<string>, undeletable: set<Path>): (r: map<Path, Bytes>)
    ensures forall p :: p in r ==> p in files && r[p] == files[p]
    ensures forall p :: p in files && p !in r ==> p !in undeletable && Under(ChatDirectoryUrl(root, dir, None), p)
  {
    if listing.None? then files else files - Swept(files, root, dir, referenced, listing.value, undeletable)
  }

  /** `sub` is the slice of `s` that starts at `i`. */
  predicate OccursAt(sub: string, s: string, i: int) {
    0 <= i <= |s| - |sub| && s[i..i + |sub|] == sub
  }

  /** `sub` occurs in `s` exactly when some slice of `s` is `sub`. */
  lemma {:induction false} OccursIffSlice(sub: string, s: string)
    ensures Occurs(sub, s) <==> exists i :: OccursAt(sub, s, i)
    decreases |s|
  {
    if sub <= s {
      assert OccursAt(sub, s, 0);
    } else if |s| > 0 {
      OccursIffSlice(sub, s[1..]);
      if Occurs(sub, s[1..]) {
        var i :| OccursAt(sub, s[1..], i);
        assert OccursAt(sub, s, i + 1);
      }
      if exists i :: OccursAt(sub, s, i) {
        var i :| OccursAt(sub, s, i);
        assert s[..|sub|] == s[0..|sub|];
        assert OccursAt(sub, s[1..], i - 1);
      }
    }
  }

  /** A file is removed exactly when it is a listed entry the rule does not
      keep, or lies below one, and it can be deleted; nothing else is touched. */
  lemma CleanedRemovesExactlyUnkept(files: map<Path, Bytes>, root: Path, dir: ChatDirectory,
                                    names: seq<string>, referenced: seq<string>, undeletable: set<Path>, p: Path)
    ensures var after := Cleaned(files, root, dir, Some(names), referenced, undeletable);
            p in after <==>
              p in files
              && (p in undeletable || !(exists n :: n in names && EntryUrl(root, dir, n) <= p && !Keeps(dir, referenced, n)))
  {
    if exists n :: n in names && EntryUrl(root, dir, n) <= p && !Keeps(dir, referenced, n) {
      var n :| n in names && EntryUrl(root, dir, n) <= p && !Keeps(dir, referenced, n);
      assert p[..|root| + 3] == EntryUrl(root, dir, n);
    }
    if |p| >= |root| + 3 && p[..|root| + 3] in Doomed(root, dir, referenced, names) {
      var n := p[|root| + 2];
      assert p[..|root| + 3] == EntryUrl(root, dir, n);
    }
  }

  /** A file below a listed entry that the rule does not keep goes with it,
      unless it cannot be deleted. */
  lemma CleanedRemovesListedSubdirectory(files: map<Path, Bytes>, root: Path, dir: ChatDirectory,
                                         names: seq<string>, referenced: seq<string>, undeletable: set<Path>,
                                         n: string, rest: Path)
    requires n in names && !Keeps(dir, referenced, n)
    requires EntryUrl(root, dir, n) + rest in files && EntryUrl(root, dir, n) + rest !in undeletable
    ensures EntryUrl(root, dir, n) + rest !in Cleaned(files, root, dir, Some(names), referenced, undeletable)
  {
    CleanedRemovesExactlyUnkept(files, root, dir, names, referenced, undeletable, EntryUrl(root, dir, n) + rest);
  }

  /** Outside the videos directory a file that can be deleted survives iff
      its name is referenced: referenced files are never removed, and every
      listed file that remains is referenced or undeletable. */
  lemma CleanedKeepsExactlyReferenced(files: map<Path, Bytes>, root: Path, dir: ChatDirectory,
                                      names: seq<string>, referenced: seq<string>, undeletable: set<Path>, n: string)
    requires dir != Videos
    requires n in names && EntryUrl(root, dir, n) in files
    ensures EntryUrl(root, dir, n) in Cleaned(files, root, dir, Some(names), referenced, undeletable)
            <==> n in referenced || EntryUrl(root, dir, n) in undeletable
  {
    assert EntryUrl(root, dir, n)[..|root| + 3] == EntryUrl(root, dir, n);
  }

  /** In the videos directory a file that can be deleted survives iff the
      extension-free name of some referenced URL occurs in its name. */
  lemma CleanedVideosKeepsMatchingStems(files: map<Path, Bytes>, root: Path,
                                        names: seq<string>, referenced: seq<string>, undeletable: set<Path>, n: string)
    requires n in names && EntryUrl(root, Videos, n) in files
    ensures EntryUrl(root, Videos, n) in Cleaned(files, root, Videos, Some(names), referenced, undeletable) <==>
              (exists i :: 0 <= i < |referenced| && Contains(n, Stem(referenced[i])))
              || EntryUrl(root, Videos, n) in undeletable
  {
    assert EntryUrl(root, Videos, n)[..|root| + 3] == EntryUrl(root, Videos, n);
  }

  /** Cleaning twice removes nothing the second time, provided the first
      listing named every entry of the directory that holds a file; the
      second listing is arbitrary. */
  lemma CleanedIdempotent(files: map<Path, Bytes>, root: Path, dir: ChatDirectory,
                         first: seq<string>, second: Option<seq<string>>, referenced: seq<string>,
                         undeletable: set<Path>)
    requires forall p :: p in files && Under(ChatDirectoryUrl(root, dir, None), p) ==> p[|root| + 2] in first
    ensures var once := Cleaned(files, root, dir, Some(first), referenced, undeletable);
            Cleaned(once, root, dir, second, referenced, undeletable) == once
  {
    var once := Cleaned(files, root, dir, Some(first), referenced, undeletable);
    if second.Some? {
      assert Swept(once, root, dir, referenced, second.value, undeletable) == {};
    }
  }

  /** Doomed entries grow one listed name at a time. */
  lemma DoomedSnoc(root: Path, dir: ChatDirectory, referenced: seq<string>, names: seq<string>, name: string)
    ensures Doomed(root, dir, referenced, names + [name])
            == Doomed(root, dir, referenced, names) + (if Keeps(dir, referenced, name) then {} else {EntryUrl(root, dir, name)})
  {
    var before := Doomed(root, dir, referenced, names);
    var after := Doomed(root, dir, referenced, names + [name]);
    forall p | p in after ensures p in before || (!Keeps(dir, referenced, name) && p == EntryUrl(root, dir, name)) {
      var n := p[|root| + 2];
      assert p == EntryUrl(root, dir, n);
      if n != name {
        assert n in names;
      }
    }
  }

  /** Removing one more unkept entry from what is left after sweeping a
      prefix of the listing sweeps one name more. */
  lemma SweepEntry(start: map<Path, Bytes>, root: Path, dir: ChatDirectory, referenced: seq<string>,
                   names: seq<string>, undeletable: set<Path>, name: string)
    requires !Keeps(dir, referenced, name)
    ensures RemoveTree(start - Swept(start, root, dir, referenced, names, undeletable), undeletable, EntryUrl(root, dir, name)).1
            == start - Swept(start, root, dir, referenced, names + [name], undeletable)
  {
    var url := EntryUrl(root, dir, name);
    var after := RemoveTree(start - Swept(start, root, dir, referenced, names, undeletable), undeletable, url).1;
    var expected := start - Swept(start, root, dir, referenced, names + [name], undeletable);
    DoomedSnoc(root, dir, referenced, names, name);
    forall q ensures q in after <==> q in expected {
      if |q| >= |root| + 3 {
        assert url <= q <==> q[..|root| + 3] == url;
      }
    }
    assert forall q :: q in after ==> after[q] == expected[q];
  }

  /** `clean(chatDirectory:)`: walks the listing and removes every entry the
      rule does not keep; failed removals are ignored (`try?`). */
  method Clean(fs: FileStore, root: Path, dir: ChatDirectory,
               listing: Option<seq<string>>, referenced: seq<string>)
    modifies fs
    ensures fs.files == Cleaned(old(fs.files), root, dir, listing, referenced, fs.undeletable)
  {
    if listing.None? {
      return;
    }
    var names := listing.value;
    for i := 0 to |names|
      invariant fs.files == old(fs.files) - Swept(old(fs.files), root, dir, referenced, names[..i], fs.undeletable)
    {
      var name := names[i];
      assert names[..i + 1] == names[..i] + [name];
      if !Keeps(dir, referenced, name) {
        SweepEntry(old(fs.files), root, dir, referenced, names[..i], fs.undeletable, name);
        var _ := fs.RemoveTreeItem(EntryUrl(root, dir, name));
      } else {
        DoomedSnoc(root, dir, referenced, names[..i], name);
      }
    }
    assert names[..|names|] == names;
  }

  /** The directories `cleanAllChatDirectories` cleans, in order. */
  const CleanedDirectories: seq<ChatDirectory> := [Photos, Audios, Files, Videos]

  /** The files after cleaning each of `dirs` in turn; `contents` stands for
      `contentsOfDirectory(atPath:)` and `mediaUrls` for
      `MessageDAO.getMediaUrls(likeCategory:)`. */
  function CleanedAll(files: map<Path, Bytes>, root: Path, dirs: seq<ChatDirectory>,
                      contents: Path -> Option<seq<string>>, mediaUrls: string -> seq<string>,
                      undeletable: set<Path>): map<Path, Bytes>
    decreases |dirs|
  {
    if dirs == [] then files
    else
      var d := dirs[0];
      var once := Cleaned(files, root, d, contents(ChatDirectoryUrl(root, d, None)), mediaUrls(d.MessageCategorySuffix()),
                          undeletable);
      CleanedAll(once, root, dirs[1..], contents, mediaUrls, undeletable)
  }

  /** Cleaning a list of chat directories removes files and never adds or
      changes one, and never touches a file outside those directories. */
  lemma {:induction false} CleanedAllOnlyRemovesFromChatDirectories(
    files: map<Path, Bytes>, root: Path, dirs: seq<ChatDirectory>,
    contents: Path -> Option<seq<string>>, mediaUrls: string -> seq<string>, undeletable: set<Path>)
    ensures var after := CleanedAll(files, root, dirs, contents, mediaUrls, undeletable);
            && (forall p :: p in after ==> p in files && after[p] == files[p])
            && (forall p :: p in files && p !in after ==>
                  exists i :: 0 <= i < |dirs| && Under(ChatDirectoryUrl(root, dirs[i], None), p))
    decreases |dirs|
  {
    if dirs != [] {
      var d := dirs[0];
      var once := Cleaned(files, root, d, contents(ChatDirectoryUrl(root, d, None)), mediaUrls(d.MessageCategorySuffix()),
                          undeletable);
      CleanedAllOnlyRemovesFromChatDirectories(once, root, dirs[1..], contents, mediaUrls, undeletable);
      var after := CleanedAll(files, root, dirs, contents, mediaUrls, undeletable);
      forall p | p in files && p !in after
        ensures exists i :: 0 <= i < |dirs| && Under(ChatDirectoryUrl(root, dirs[i], None), p)
      {
        if p in once {
          var i :| 0 <= i < |dirs[1..]| && Under(ChatDirectoryUrl(root, dirs[1..][i], None), p);
          assert dirs[1..][i] == dirs[i + 1];
        } else {
          assert Under(ChatDirectoryUrl(root, dirs[0], None), p);
        }
      }
    }
  }

  /** `cleanAllChatDirectories`: photos, audios, files, videos, in that order. */
  method CleanAllChatDirectories(fs: FileStore, root: Path,
                                 contents: Path -> Option<seq<string>>, mediaUrls: string -> seq<string>)
    modifies fs
    ensures fs.files == CleanedAll(old(fs.files), root, CleanedDirectories, contents, mediaUrls, fs.undeletable)
  {
    var dirs := CleanedDirectories;
    for i := 0 to |dirs|
      invariant CleanedAll(fs.files, root, dirs[i..], contents, mediaUrls, fs.undeletable)
             == CleanedAll(old(fs.files), root, dirs, contents, mediaUrls, fs.undeletable)
    {
      var d := dirs[i];
      assert dirs[i..][1..] == dirs[i + 1..];
      Clean(fs, root, d, contents(ChatDirectoryUrl(root, d, None)), mediaUrls(d.MessageCategorySuffix()));
    }
  }

  /** `ExtensionName`, a String-backed enum of file extensions. */
  datatype ExtensionName = Jpeg | Mp4 | Html | Ogg | Gif {

    /** The extension without its dot; it holds no dot of its own. */
    function RawValue(): (r: string)
      ensures 3 <= |r| <= 4 && '.' !in r
    {
      match this
      case Jpeg => "jpg"
      case Mp4 => "mp4"
      case Html => "html"
      case Ogg => "ogg"
      case Gif => "gif"
    }

    /** The extension as a file-name suffix. */
    function WithDot(): (r: string)
      ensures |r| == |RawValue()| + 1 && r[0] == '.' && r[1..] == RawValue()
    {
      "." + RawValue()
    }
  }

  /** Different extensions give different suffixes. */
  lemma WithDotInjective(a: ExtensionName, b: ExtensionName)
    ensures a.WithDot() == b.WithDot() <==> a == b
  {
  }

  lemma WithDotValues()
    ensures Jpeg.WithDot() == ".jpg" && Mp4.WithDot() == ".mp4" && Html.WithDot() == ".html"
    ensures Ogg.WithDot() == ".ogg" && Gif.WithDot() == ".gif"
  {
  }

  /** Swift's `Int64`. */
  newtype Int64 = x: int | -0x8000_0000_0000_0000 <= x < 0x8000_0000_0000_0000

  const MuteDuration8H: Int64 := 8 * 60 * 60
  const MuteDuration1Week: Int64 := 7 * 24 * 60 * 60
  const MuteDuration1Year: Int64 := 365 * 24 * 60 * 60

  lemma MuteDurations()
    ensures MuteDuration8H == 28800 && MuteDuration1Week == 604800 && MuteDuration1Year == 31536000
    ensures MuteDuration1Week == 21 * MuteDuration8H
  {
  }
}
