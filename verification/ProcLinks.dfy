/** What a link under /proc says of a place (scripts/build_storage.py, `process_places`). The
    kernel writes the path, and marks one whose file is gone by an ending; the reader takes the
    ending off, whoever wrote it. */
module ProcLinks {
  import opened Worktrees
  import ResourceKeys

  const DELETED := " (deleted)"

  predicate EndsDeleted(text: string) { |text| >= |DELETED| && text[|text| - |DELETED|..] == DELETED }

  function Stripped(text: string): string
    requires EndsDeleted(text)
  {
    text[..|text| - |DELETED|]
  }

  /** The place the reader makes of a link. */
  function LinkPath(target: string): Path {
    PathOf(if EndsDeleted(target) then Stripped(target) else target)
  }

  /** What the kernel writes for the file at `text`, removed or not. */
  function LinkText(text: string, removed: bool): string { if removed then text + DELETED else text }

  lemma LinkOfRemoved(text: string)
    ensures EndsDeleted(text + DELETED) && Stripped(text + DELETED) == text
  {
  }

  // ----- A path with a longer last name -----

  /** The pieces, with more at the end of the last. */
  function Lengthened(parts: seq<string>, more: string): seq<string>
    requires parts != []
  {
    parts[..|parts| - 1] + [parts[|parts| - 1] + more]
  }

  lemma GlueLengthened(c: char, parts: seq<string>, more: string)
    requires parts != []
    ensures ResourceKeys.Glue(c, Lengthened(parts, more)) == Lengthened(ResourceKeys.Glue(c, parts), more)
  {
    if |parts| == 1 {
      assert [c] + (parts[0] + more) == ([c] + parts[0]) + more;
    }
  }

  lemma {:induction false} SplitLonger(text: string, more: string)
    requires '/' !in more
    ensures ResourceKeys.Split(text + more) == Lengthened(ResourceKeys.Split(text), more)
  {
    if text == [] {
      assert text + more == more;
      SplitPlain(more);
    } else {
      SplitLonger(text[1..], more);
      assert (text + more)[1..] == text[1..] + more;
      GlueLengthened(text[0], ResourceKeys.Split(text[1..]), more);
    }
  }

  function Base(text: string): Path {
    if "//" <= text && !("///" <= text) then ["//"] else if "/" <= text then ["/"] else []
  }

  lemma SlashesStay(slashes: string, text: string, more: string)
    requires (forall i :: 0 <= i < |slashes| ==> slashes[i] == '/') && '/' !in more
    ensures slashes <= text + more <==> slashes <= text
  {
    if |slashes| > |text| && more != "" {
      assert (text + more)[|text|] == more[0] && more[0] in more && slashes[|text|] == '/';
    }
  }

  lemma SameBase(text: string, more: string)
    requires '/' !in more
    ensures Base(text + more) == Base(text)
  {
    SlashesStay("/", text, more);
    SlashesStay("//", text, more);
    SlashesStay("///", text, more);
  }

  /** The two paths differ in their last name alone, which one of them may not have. */
  lemma LastNameDiffers(text: string, more: string) returns (above: Path, last: string, short: string)
    requires '/' !in more && |more| > 1
    ensures PathOf(text + more) == above + [last] && PathOf(text) == above + (if IsName(short) then [short] else []) && short != last
  {
    SplitLonger(text, more);
    var parts := ResourceKeys.Split(text);
    short := parts[|parts| - 1];
    last := short + more;
    var most := parts[..|parts| - 1];
    NamedAppends(most, last);
    NamedAppends(most, short);
    assert most + [short] == parts;
    SameBase(text, more);
    above := Base(text) + Named(most);
    assert |last| > 1;
  }

  /** A base that the longer path is under is one the shorter is under too, unless it is that
      path. */
  lemma UnderEither(above: Path, last: string, short: string, base: Path)
    requires short != last && base <= above + [last]
    ensures base <= above + (if IsName(short) then [short] else []) <==> base != above + [last]
  {
    if |base| <= |above| {
      assert base == (above + [last])[..|base|] == above[..|base|];
      assert base <= above;
    } else {
      assert base == above + [last];
      assert base[|above|] == last;
    }
  }

  /** A link tells that its process is under `root` exactly when the ending it may carry is the
      kernel's own mark, or the working directory is below the root. */
  lemma LinkTellsExactlyWhen(text: string, removed: bool, root: Path)
    requires Within(PathOf(text), root)
    ensures Within(LinkPath(LinkText(text, removed)), root) <==> removed || !EndsDeleted(text) || PathOf(text) != root
  {
    if removed {
      LinkOfRemoved(text);
    } else if EndsDeleted(text) {
      assert text == Stripped(text) + DELETED;
      var above, last, short := LastNameDiffers(Stripped(text), DELETED);
      UnderEither(above, last, short, root);
    }
  }

  lemma PathOfName(name: string)
    requires '/' !in name && IsName(name)
    ensures PathOf("/" + name) == ["/", name]
  {
    SplitPlain(name);
    var text := "/" + name;
    assert text[1..] == name;
    assert ResourceKeys.Split(text) == [""] + [name];
    NamedAppends([""], name);
    assert text[1] == name[0] && name[0] in name;
    assert !("//" <= text);
  }
}
