/** The checks and the `dd` command line of the image writer's Start action. */
module Command {
  import opened Drives

  datatype Option<T> = None | Some(value: T)

  /** How many double quotes `s` holds. */
  function QuoteCount(s: string): nat {
    if s == [] then 0 else (if s[0] == '"' then 1 else 0) + QuoteCount(s[1..])
  }

  /** Every double quote becomes backslash-quote; nothing else changes. */
  function EscapeQuotes(s: string): (r: string)
    ensures |r| == |s| + QuoteCount(s)
    ensures r != [] ==> r[0] != '"'
    ensures forall i :: 0 <= i < |r| && r[i] == '"' ==> 0 < i && r[i - 1] == '\\'
  {
    if s == [] then []
    else (if s[0] == '"' then "\\\"" else [s[0]]) + EscapeQuotes(s[1..])
  }

  /** Undoes the escaping: backslash-quote becomes a double quote again. */
  function Unescape(r: string): string {
    if r == [] then []
    else if |r| >= 2 && r[0] == '\\' && r[1] == '"' then "\"" + Unescape(r[2..])
    else [r[0]] + Unescape(r[1..])
  }

  /** Escaping loses nothing: the original text can be read back. */
  lemma {:induction false} UnescapeEscapeQuotes(s: string)
    ensures Unescape(EscapeQuotes(s)) == s
  {
    if s != [] {
      var rest := EscapeQuotes(s[1..]);
      UnescapeEscapeQuotes(s[1..]);
      if s[0] == '"' {
        assert EscapeQuotes(s) == "\\\"" + rest;
        assert ("\\\"" + rest)[2..] == rest;
      } else {
        assert EscapeQuotes(s) == [s[0]] + rest;
        assert ([s[0]] + rest)[1..] == rest;
      }
      assert s == [s[0]] + s[1..];
    }
  }

  /** `dd if='<image>' of='<drive>' bs=<bs> status=progress`: the image
      file and the drive stand, unaltered, in the single-quoted operands. */
  function DDCommandLine(imageFile: string, drive: string, blockSize: string): (line: string)
    ensures |line| == |imageFile| + |drive| + |blockSize| + 34
    ensures line[..7] == "dd if='"
    ensures line[7..7 + |imageFile|] == imageFile
    ensures line[7 + |imageFile|..13 + |imageFile|] == "' of='"
    ensures line[13 + |imageFile|..13 + |imageFile| + |drive|] == drive
    ensures line[|line| - 16..] == " status=progress"
  {
    "dd if='" + imageFile + "' of='" + drive + "' bs=" + blockSize + " status=progress"
  }

  /** The command the Start action runs, or None when it refuses the input
      (no drive, no image file, or the root volume). */
  function PrepareDD(drive: string, imageFile: string, blockSize: string): (r: Option<string>)
    ensures r.None? <==> (drive == "" || imageFile == "" || drive == RootPath)
    ensures r.Some? ==> Unescape(r.value) == DDCommandLine(imageFile, drive, blockSize)
  {
    if drive == "" || imageFile == "" || drive == RootPath then None
    else
      UnescapeEscapeQuotes(DDCommandLine(imageFile, drive, blockSize));
      Some(EscapeQuotes(DDCommandLine(imageFile, drive, blockSize)))
  }

  /** Start refuses exactly an empty drive, an empty image file or the root
      volume; otherwise its command is the dd command line with every double
      quote escaped: one character longer per quote, every quote preceded by
      a backslash, and the unescaped text is the dd command line itself. */
  lemma PrepareDDCorrect(drive: string, imageFile: string, blockSize: string)
    ensures PrepareDD(drive, imageFile, blockSize).None? <==>
            (drive == "" || imageFile == "" || drive == RootPath)
    ensures PrepareDD(drive, imageFile, blockSize).Some? ==>
              var c := PrepareDD(drive, imageFile, blockSize).value;
              var line := DDCommandLine(imageFile, drive, blockSize);
              |c| == |line| + QuoteCount(line) &&
              (forall i :: 0 <= i < |c| && c[i] == '"' ==> 0 < i && c[i - 1] == '\\') &&
              Unescape(c) == line
  {
    UnescapeEscapeQuotes(DDCommandLine(imageFile, drive, blockSize));
  }

  /** The data of the selected entry, or "" when nothing is selected. */
  function CurrentData(items: seq<Item>, selected: int): (d: string)
    ensures !(0 <= selected < |items|) ==> d == ""
    ensures d != "" ==> exists x :: x in items && x.data == d
  {
    if 0 <= selected < |items| then items[selected].data else ""
  }

  /** With the placeholder selected, or nothing selected, Start refuses. */
  lemma PlaceholderRefused(items: seq<Item>, selected: int, imageFile: string, blockSize: string)
    requires !(0 <= selected < |items|) || items[selected] == Placeholder
    ensures PrepareDD(CurrentData(items, selected), imageFile, blockSize) == None
  {
  }
}
