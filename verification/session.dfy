/** `enter_main` as a composition: the selected paths are joined into a
    listing, the user's edit of it is compared with it, and the rules are
    applied. Selecting files and running the editor are outside the model,
    so their results are parameters. */
module Session {
  import opened Wrappers
  import opened TextLines
  import opened Base
  import opened RenamingRules
  import opened FileSystem
  import opened Execution

  /** One run of the program for the selected `files` and the text the
      editor gave back. */
  function RenameSession(files: seq<Path>, edited: string, fs: Fs, refused: Refusals, resolve: Resolver): (run: Run)
    ensures edited == Join(files) ==> run == Run(Pass, fs)
  {
    var rules := FindRenamingRules(Join(files), edited);
    EmptyBatchSucceeds(fs, refused, resolve);
    ApplyFileRenamingRules(rules, fs, refused, resolve)
  }

  /** For a listing that survives the round trip through its text, an edit
      that keeps the number of lines gives one rule per edited line, from
      the selected path to the line as edited, in selection order. */
  lemma SessionRulesFollowEdits(files: seq<Path>, edited: string) returns (pos: seq<nat>)
    requires Listing(files)
    requires |Lines(edited)| == |files|
    ensures ChangedPositions(pos, files, Lines(edited))
    ensures RulesAt(FindRenamingRules(Join(files), edited), pos, files, Lines(edited))
  {
    LinesOfJoin(files);
    pos := DerivedRulesAreChangedLines(Join(files), edited);
  }

  /** An edit that adds or removes lines renames nothing. */
  lemma LineCountChangeRenamesNothing(files: seq<Path>, edited: string, fs: Fs, refused: Refusals, resolve: Resolver)
    requires Listing(files)
    requires |Lines(edited)| != |files|
    ensures RenameSession(files, edited, fs, refused, resolve) == Run(Pass, fs)
  {
    LinesOfJoin(files);
    EmptyBatchSucceeds(fs, refused, resolve);
  }
}
