/**
 * Output-path derivation of the command-line `remove_background`: the result
 * is always written as PNG, so a missing output path becomes
 * `<input stem>_no_bg.png` beside the input and a given one has its suffix
 * forced to `.png` unless it already is one, ignoring case. The `pathlib`
 * rules for a path's `suffix`, `stem` and `with_suffix` are modelled on a path
 * already split into its parent and its final component.
 */
module OutputPaths {
  import opened Wrappers
  import opened Imaging

  /** A path split into its parent and its final component `name` (empty for `.` or `/`). */
  datatype Path = Path(parent: string, name: string)

  const Png: string := ".png"

  /** `s.rfind(c)`: the last index holding `c`, or -1. */
  function LastIndexOf(s: string, c: char): (i: int)
    ensures -1 <= i < |s|
    ensures 0 <= i ==> s[i] == c
    ensures forall k :: i < k < |s| ==> s[k] != c
  {
    if |s| == 0 then -1
    else if s[|s| - 1] == c then |s| - 1
    else LastIndexOf(s[..|s| - 1], c)
  }

  /** Whether `name` has a suffix: its last dot is neither the first nor the last character. */
  predicate HasSuffix(name: string) {
    0 < LastIndexOf(name, '.') < |name| - 1
  }

  /** `PurePath.suffix`: from the last dot on, or empty. */
  function Suffix(name: string): string {
    if HasSuffix(name) then name[LastIndexOf(name, '.')..] else ""
  }

  /** `PurePath.stem`: the name without its suffix. */
  function Stem(name: string): string {
    if HasSuffix(name) then name[..LastIndexOf(name, '.')] else name
  }

  /** A name is its stem followed by its suffix, and the stem of a non-empty name is non-empty. */
  lemma StemAndSuffix(name: string)
    ensures Stem(name) + Suffix(name) == name
    ensures name != "" ==> Stem(name) != ""
  {
  }

  /** `str.lower()` on one character, for the ASCII letters. */
  function LowerChar(c: char): char {
    if 'A' <= c <= 'Z' then (c as int + 32) as char else c
  }

  function Lower(s: string): (r: string)
    ensures |r| == |s|
  {
    seq(|s|, (k: int) requires 0 <= k < |s| => LowerChar(s[k]))
  }

  /** `PurePath.with_suffix`: it rejects a malformed suffix and a path with an empty name. */
  function WithSuffix(p: Path, suffix: string): Result<Path, Failure> {
    if '/' in suffix || (suffix != "" && suffix[0] != '.') || suffix == "." then Err(InvalidSuffix)
    else if p.name == "" then Err(EmptyName)
    else Ok(Path(p.parent, Stem(p.name) + suffix))
  }

  /** `input_path.parent / f"{input_path.stem}_no_bg.png"`. */
  function DefaultOutput(input: Path): Path {
    Path(input.parent, Stem(input.name) + "_no_bg" + Png)
  }

  /** A given output path keeps a `.png` suffix of any case; any other suffix is replaced by `.png`. */
  function NormaliseOutput(p: Path): Result<Path, Failure> {
    if Lower(Suffix(p.name)) == Png then Ok(p) else WithSuffix(p, Png)
  }

  /** The output path of `remove_background`, with or without an explicit one. */
  function OutputPathFor(input: Path, output: Option<Path>): Result<Path, Failure> {
    match output
    case None => Ok(DefaultOutput(input))
    case Some(p) => NormaliseOutput(p)
  }

  /** Appending `.png` to a non-empty stem gives a name whose suffix is `.png` and whose stem is that stem. */
  lemma PngNameSplits(stem: string)
    requires stem != ""
    ensures Suffix(stem + Png) == Png && Stem(stem + Png) == stem
  {
    var name := stem + Png;
    assert name[|stem|] == '.';
    assert forall k :: |stem| < k < |name| ==> name[k] != '.' by {
      forall k | |stem| < k < |name| ensures name[k] != '.' {
        assert name[k] == Png[k - |stem|];
      }
    }
    assert LastIndexOf(name, '.') == |stem|;
    assert name[|stem|..] == Png;
    assert name[..|stem|] == stem;
  }

  /** The default output path sits beside the input, is named after its stem, and has suffix `.png`. */
  lemma DefaultOutputSpec(input: Path)
    ensures var r := DefaultOutput(input);
            r.parent == input.parent && Suffix(r.name) == Png && Stem(r.name) == Stem(input.name) + "_no_bg"
  {
    assert Stem(input.name) + "_no_bg" + Png == (Stem(input.name) + "_no_bg") + Png;
    PngNameSplits(Stem(input.name) + "_no_bg");
  }

  /**
   * Normalising a given output path fails exactly when its name is empty;
   * otherwise it keeps the parent, leaves a path whose lower-cased suffix is
   * `.png` untouched, and otherwise keeps the stem and makes the suffix `.png`.
   */
  lemma NormaliseOutputSpec(p: Path)
    ensures NormaliseOutput(p).Err? <==> p.name == ""
    ensures NormaliseOutput(p).Err? ==> NormaliseOutput(p).error == EmptyName
    ensures Lower(Suffix(p.name)) == Png ==> NormaliseOutput(p) == Ok(p)
    ensures NormaliseOutput(p).Ok? ==>
              var r := NormaliseOutput(p).value;
              r.parent == p.parent && Lower(Suffix(r.name)) == Png && Stem(r.name) == Stem(p.name)
  {
    if p.name == "" {
      assert Suffix(p.name) == "";
      assert Lower("") != Png;
    } else if Lower(Suffix(p.name)) != Png {
      StemAndSuffix(p.name);
      PngNameSplits(Stem(p.name));
      assert Lower(Png) == Png;
    }
  }

  /** Normalising twice is normalising once. */
  lemma NormaliseOutputIdempotent(p: Path)
    requires NormaliseOutput(p).Ok?
    ensures NormaliseOutput(NormaliseOutput(p).value) == NormaliseOutput(p)
  {
    NormaliseOutputSpec(p);
    NormaliseOutputSpec(NormaliseOutput(p).value);
  }

  /** Whichever branch is taken, a derived output path has lower-cased suffix `.png`. */
  lemma OutputPathIsPng(input: Path, output: Option<Path>)
    requires OutputPathFor(input, output).Ok?
    ensures Lower(Suffix(OutputPathFor(input, output).value.name)) == Png
  {
    match output
    case None =>
      DefaultOutputSpec(input);
      assert Lower(Png) == Png;
    case Some(p) => NormaliseOutputSpec(p);
  }
}
