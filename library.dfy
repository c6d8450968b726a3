/**
 * Building the playlist from a folder listing: the extension filter, the
 * display-name truncation and the fresh entries load_playlist appends.
 */
module Library {

  /** A slider position: a volume in percent. */
  type Percent = v: int | 0 <= v <= 100

  /** One playlist entry; `loaded` stands for the lazily cached decoded sound. */
  datatype Item = Item(path: string, loop: bool, volume: Percent, loaded: bool)

  /** The slider's initial position. */
  const DefaultVolume: Percent := 70

  /** The widest name shown unabridged in a playlist row. */
  const NameWidth: nat := 35

  /** The position of the last '.' in `s`, if any. */
  function LastDot(s: string): (i: int)
    ensures -1 <= i < |s|
    ensures i >= 0 ==> s[i] == '.'
    ensures forall k :: i < k < |s| ==> s[k] != '.'
  {
    if s == [] then -1
    else if s[|s| - 1] == '.' then |s| - 1
    else LastDot(s[..|s| - 1])
  }

  /**
   * `Path(name).suffix`: from the last dot to the end, when that dot is
   * neither the first nor the last character; otherwise empty.
   */
  function Suffix(name: string): (r: string)
    ensures r == [] || (2 <= |r| < |name| && r == name[|name| - |r|..] && r[0] == '.')
    ensures forall k :: 0 < k < |r| ==> r[k] != '.'
    ensures r != [] <==> exists i :: LastDotAt(name, i) && 0 < i < |name| - 1
  {
    var i := LastDot(name);
    LastDotUnique(name, i);
    assert i >= 0 ==> LastDotAt(name, i);
    if 0 < i < |name| - 1 then name[i..] else []
  }

  /** Position `i` holds the last '.' of `s`. */
  predicate LastDotAt(s: string, i: int)
  {
    0 <= i < |s| && s[i] == '.' && forall k :: i < k < |s| ==> s[k] != '.'
  }

  /** LastDot finds the only position holding the last dot, and -1 when there is no dot. */
  lemma LastDotUnique(s: string, j: int)
    requires j == LastDot(s)
    ensures forall i :: LastDotAt(s, i) <==> i == j && j >= 0
  {
  }

  /** `str.lower()` on the ASCII letters. */
  function LowerChar(c: char): char
  {
    if 'A' <= c <= 'Z' then (c as int - 'A' as int + 'a' as int) as char else c
  }

  function Lower(s: string): (r: string)
    ensures |r| == |s|
    ensures forall k :: 0 <= k < |s| ==> r[k] == LowerChar(s[k])
  {
    seq(|s|, k requires 0 <= k < |s| => LowerChar(s[k]))
  }

  /** The lower-cased suffix is one of the four audio extensions. */
  predicate IsAudio(name: string)
  {
    Lower(Suffix(name)) in {".mp3", ".wav", ".ogg", ".flac"}
  }

  /** One listing name's contribution to the comprehension: itself when it is audio, else nothing. */
  function Keep(name: string): (r: seq<string>)
    ensures |r| <= 1
  {
    if IsAudio(name) then [name] else []
  }

  /** The comprehension over the directory listing: audio names, in listing order. */
  function AudioFiles(names: seq<string>): (r: seq<string>)
    ensures |r| <= |names|
  {
    if names == [] then [] else Keep(names[0]) + AudioFiles(names[1..])
  }

  /** The value a 0..100 slider takes when asked for `v`. */
  function SliderValue(v: int): (r: Percent)
    ensures 0 <= v <= 100 ==> r == v
    ensures v > 100 ==> r == 100
    ensures v < 0 ==> r == 0
  {
    if v < 0 then 0 else if v > 100 then 100 else v
  }

  /** The label text of a playlist row. */
  function DisplayName(name: string): (r: string)
    ensures |r| <= NameWidth + 3
    ensures |name| <= NameWidth ==> r == name
  {
    if |name| > NameWidth then name[..NameWidth] + "..." else name
  }

  /** An entry as load_playlist creates it: loop off, volume 70, nothing decoded yet. */
  function NewItem(name: string): (it: Item)
    ensures it.path == name && !it.loop && it.volume == DefaultVolume && !it.loaded
  {
    Item(name, false, DefaultVolume, false)
  }

  /** The entries for a listing: one fresh entry per audio name. */
  function Entries(names: seq<string>): (r: seq<Item>)
    ensures |r| == |AudioFiles(names)|
  {
    var files := AudioFiles(names);
    seq(|files|, k requires 0 <= k < |files| => NewItem(files[k]))
  }

  /** The label texts of the playlist rows, one per entry. */
  function Labels(items: seq<Item>): (r: seq<string>)
    ensures |r| == |items|
    ensures forall k :: 0 <= k < |items| ==> r[k] == DisplayName(items[k].path)
  {
    seq(|items|, k requires 0 <= k < |items| => DisplayName(items[k].path))
  }

  /** Entry `i` of the listing is a fresh entry for the i-th audio name, labelled with its display name. */
  lemma EntryAt(names: seq<string>, i: nat)
    requires i < |AudioFiles(names)|
    ensures Entries(names)[i] == NewItem(AudioFiles(names)[i])
    ensures Labels(Entries(names))[i] == DisplayName(AudioFiles(names)[i])
  {
  }

  /** A prefix one longer is the shorter prefix and one more element. */
  lemma PrefixSnoc<T>(s: seq<T>, i: nat)
    requires i < |s|
    ensures s[..i + 1] == s[..i] + [s[i]]
  {
  }

  lemma EntriesWhole(names: seq<string>)
    ensures var all := Entries(names);
      all[..|AudioFiles(names)|] == all && Labels(all)[..|AudioFiles(names)|] == Labels(all)
  {
  }

  /** Every audio name of the listing is kept, and only those. */
  lemma {:induction false} AudioFilesExactly(names: seq<string>, name: string)
    ensures name in AudioFiles(names) <==> name in names && IsAudio(name)
  {
    if names != [] {
      AudioFilesExactly(names[1..], name);
      assert name in names <==> name == names[0] || name in names[1..] by {
        assert names == [names[0]] + names[1..];
      }
      assert name in Keep(names[0]) <==> name == names[0] && IsAudio(name);
    }
  }

  /** Filtering commutes with concatenation, so the listing order is kept. */
  lemma {:induction false} AudioFilesAppend(a: seq<string>, b: seq<string>)
    ensures AudioFiles(a + b) == AudioFiles(a) + AudioFiles(b)
  {
    if a == [] {
      assert a + b == b;
    } else {
      var ab := a + b;
      assert ab[0] == a[0] && ab[1..] == a[1..] + b;
      AudioFilesAppend(a[1..], b);
      ConcatAssoc(Keep(a[0]), AudioFiles(a[1..]), AudioFiles(b));
    }
  }

  lemma ConcatAssoc<T>(x: seq<T>, y: seq<T>, z: seq<T>)
    ensures x + (y + z) == (x + y) + z
  {
  }

  /** A bare dot-file has no suffix, so it is not taken for audio. */
  lemma DotFileExample()
    ensures Suffix(".mp3") == [] && !IsAudio(".mp3")
  {
    assert ".mp3"[0] == '.' && ".mp3"[1..] == "mp3";
  }

  /** The case of the extension does not matter. */
  lemma UpperCaseExample()
    ensures Suffix("song.MP3") == ".MP3" && IsAudio("song.MP3")
  {
    assert "song.MP3"[4] == '.' && "song.MP3"[4..] == ".MP3";
    assert Lower(".MP3") == ".mp3";
  }

  /** Only the last extension counts. */
  lemma DoubleExtensionExample()
    ensures Suffix("a.tar.flac") == ".flac" && IsAudio("a.tar.flac")
  {
    assert "a.tar.flac"[5] == '.' && "a.tar.flac"[5..] == ".flac";
    assert Lower(".flac") == ".flac";
  }

  /** A trailing dot gives no suffix; another extension is not audio. */
  lemma NonAudioExamples()
    ensures Suffix("notes.") == [] && !IsAudio("notes.")
    ensures !IsAudio("cover.jpg")
  {
    assert "notes."[5] == '.';
    assert "cover.jpg"[5] == '.' && "cover.jpg"[5..] == ".jpg";
    assert Lower(".jpg") == ".jpg";
  }

  /**
   * A short name is shown whole; a long one keeps its first 35 characters
   * and gains "...", so no label exceeds 38 characters.
   */
  lemma DisplayNameSpec(name: string)
    ensures |DisplayName(name)| <= NameWidth + 3
    ensures |name| <= NameWidth ==> DisplayName(name) == name
    ensures |name| > NameWidth ==>
      |DisplayName(name)| == NameWidth + 3 &&
      DisplayName(name)[..NameWidth] == name[..NameWidth] &&
      DisplayName(name)[NameWidth..] == "..."
  {
  }
}
