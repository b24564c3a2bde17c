/** The output-format check of the conversion routine (index.js:13-15). */
module Format {

  /** The formats the routine accepts, in the order its error message lists them. */
  const Available: seq<string> := ["mp3", "mp4"]

  /** The format used when the caller passes none. */
  const DefaultFormat: string := "mp3"

  function LowerChar(c: char): char {
    if 'A' <= c <= 'Z' then (c as int + 32) as char else c
  }

  /** Lower-casing of a string, on the ASCII letters only; every other character is kept. */
  function ToLower(s: string): string {
    seq(|s|, k requires 0 <= k < |s| => LowerChar(s[k]))
  }

  /** The format check: the lower-cased format is one of the available formats. */
  predicate IsAvailable(format: string) {
    ToLower(format) in Available
  }

  /** The parts in order with `sep` between neighbours, as the error message lists them. */
  function Join(parts: seq<string>, sep: string): string
    decreases |parts|
  {
    if parts == [] then ""
    else if |parts| == 1 then parts[0]
    else parts[0] + sep + Join(parts[1..], sep)
  }

  /** The list the error message prints. */
  lemma AvailableListed()
    ensures Join(Available, ", ") == "mp3, mp4"
  {
    assert Available[1..] == ["mp4"];
  }

  lemma LowerCharIs(c: char, l: char)
    requires 'a' <= l <= 'z'
    ensures LowerChar(c) == l <==> c == l || c as int == l as int - 32
  {
  }

  /**
   * The accepted formats, spelled out: exactly the three-letter words
   * m/M, p/P, then 3 or 4, in any mix of case.
   */
  lemma AvailableSpelled(format: string)
    ensures IsAvailable(format) <==>
      && |format| == 3
      && (format[0] == 'm' || format[0] == 'M')
      && (format[1] == 'p' || format[1] == 'P')
      && (format[2] == '3' || format[2] == '4')
  {
    var l := ToLower(format);
    if |format| == 3 {
      LowerCharIs(format[0], 'm');
      LowerCharIs(format[1], 'p');
      assert l == [LowerChar(format[0]), LowerChar(format[1]), LowerChar(format[2])];
      assert IsAvailable(format) <==> l == "mp3" || l == "mp4";
    } else {
      assert |l| != 3;
    }
  }

  /** The check ignores case: a format and its lower-case form are accepted together. */
  lemma AvailableIgnoresCase(format: string)
    ensures IsAvailable(format) <==> IsAvailable(ToLower(format))
  {
    assert ToLower(ToLower(format)) == ToLower(format);
  }
}
