/** The flat converter of Conversor.py: one input file gives one list of
    formatted order lines and one list of error lines, written to
    `<stem>_formato<ext>` and `<stem>_error<ext>` in the chosen folders. */
module Conversor {
  import opened Text
  import opened Paths
  import opened LineRules

  /** `convert_file`: a loop over the lines of one file (as `readlines`
      gives them, each with its terminator) that appends every accepted line,
      formatted, to the converted list and every other line, unchanged, to
      the error list. The per-line test and extraction are `IsAccepted` and
      `ExtractOrder`. */
  method ConvertFile(lines: seq<string>) returns (converted: seq<string>, errors: seq<string>)
    ensures converted == FormatAll(Orders(lines))
    ensures errors == ErrorLines(lines)
    ensures |converted| + |errors| == |lines|
  {
    converted, errors := [], [];
    for i := 0 to |lines|
      invariant converted == FormatAll(Orders(lines[..i]))
      invariant errors == ErrorLines(lines[..i])
    {
      LineStep(lines, i);
      var line := lines[i];
      if IsAccepted(line) {
        var order := ExtractOrder(line);
        FormatAllAppend(Orders(lines[..i]), order);
        converted := converted + [FormatOrder(order)];
      } else {
        errors := errors + [line];
      }
    }
    assert lines[..|lines|] == lines;
    PartitionCount(lines);
  }

  /** The output name shared by the two helpers below: the input's basename
      with `tag` inserted between its stem and its extension, inside
      `folder`. The extension is kept unchanged and the result is the
      folder followed by that name, with a '/' between them when the folder
      does not already end in one. */
  function TaggedFileName(inputPath: string, folder: string, tag: string): (r: string)
    requires tag != [] && tag[0] != '.' && tag[0] != '/' && '.' !in tag && '/' !in tag
    ensures var (stem, ext) := SplitExt(Basename(inputPath));
            && stem + ext == Basename(inputPath)
            && Basename(r) == stem + tag + ext
            && SplitExt(Basename(r)) == (stem + tag, ext)
    ensures |folder| <= |r| && r[..|folder|] == folder
    ensures r == if folder == [] || folder[|folder| - 1] == '/' then folder + Basename(r)
                 else folder + "/" + Basename(r)
  {
    var (stem, ext) := SplitExt(Basename(inputPath));
    var name := stem + tag + ext;
    BasenameSpec(inputPath);
    TaggedNameHasNoSlash(Basename(inputPath), tag);
    assert name[0] in name;
    JoinPathInFolder(folder, name);
    BasenameOfJoin(folder, name);
    SplitExtAfterTag(Basename(inputPath), tag);
    JoinPath(folder, name)
  }

  /** `add_format_to_filename` */
  function AddFormatToFilename(inputPath: string, outputFolder: string): (r: string)
    ensures var (stem, ext) := SplitExt(Basename(inputPath));
            && Basename(r) == stem + "_formato" + ext
            && SplitExt(Basename(r)) == (stem + "_formato", ext)
    ensures |outputFolder| <= |r| && r[..|outputFolder|] == outputFolder
    ensures r == if outputFolder == [] || outputFolder[|outputFolder| - 1] == '/' then outputFolder + Basename(r)
                 else outputFolder + "/" + Basename(r)
  {
    TaggedFileName(inputPath, outputFolder, "_formato")
  }

  /** `add_error_to_filename` */
  function AddErrorToFilename(inputPath: string, outputFolder: string): (r: string)
    ensures var (stem, ext) := SplitExt(Basename(inputPath));
            && Basename(r) == stem + "_error" + ext
            && SplitExt(Basename(r)) == (stem + "_error", ext)
    ensures |outputFolder| <= |r| && r[..|outputFolder|] == outputFolder
    ensures r == if outputFolder == [] || outputFolder[|outputFolder| - 1] == '/' then outputFolder + Basename(r)
                 else outputFolder + "/" + Basename(r)
  {
    TaggedFileName(inputPath, outputFolder, "_error")
  }

  /** The two outputs of one input never collide, whatever the folders. */
  lemma FormatAndErrorNamesDiffer(inputPath: string, formatFolder: string, errorFolder: string)
    ensures AddFormatToFilename(inputPath, formatFolder) != AddErrorToFilename(inputPath, errorFolder)
  {
    var (stem, ext) := SplitExt(Basename(inputPath));
    var formatName, errorName := stem + "_formato" + ext, stem + "_error" + ext;
    assert formatName[|stem| + 1] == 'f' && errorName[|stem| + 1] == 'e';
    assert Basename(AddFormatToFilename(inputPath, formatFolder)) == formatName;
    assert Basename(AddErrorToFilename(inputPath, errorFolder)) == errorName;
  }
}
