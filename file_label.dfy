/**
  The file label of the main window (`select_file` in gif_gui.py): the chosen path's
  base name, shortened to fit the label.
 */
module FileLabel {

  /** The longest base name shown in full. */
  const LabelLength: nat := 27

  /** How many leading characters of a longer name are kept before the ellipsis. */
  const KeptLength: nat := 24

  /**
    POSIX `os.path.basename`: everything after the last '/', the whole path when it has
    no '/', and the empty string when it ends in '/'.
   */
  function Basename(path: string): (b: string)
    ensures '/' !in b
    ensures |b| <= |path| && b == path[|path| - |b|..]
    ensures |b| < |path| ==> path[|path| - |b| - 1] == '/'
    decreases |path|
  {
    if |path| == 0 || path[|path| - 1] == '/' then ""
    else Basename(path[..|path| - 1]) + [path[|path| - 1]]
  }

  /**
    The label text: a name of at most 27 characters is shown as it is; a longer one is
    cut to its first 24 characters followed by "...", exactly 27 characters.
   */
  function DisplayName(name: string): (d: string)
    ensures |d| <= LabelLength
    ensures |name| <= LabelLength ==> d == name
    ensures |name| > LabelLength ==>
      |d| == LabelLength && d[..KeptLength] == name[..KeptLength] && d[KeptLength..] == "..."
  {
    if |name| > LabelLength then name[..KeptLength] + "..." else name
  }

  /** Two names that differ in their first 24 characters get different labels. */
  lemma DisplayNameKeepsPrefix(a: string, b: string)
    requires |a| >= KeptLength && |b| >= KeptLength && a[..KeptLength] != b[..KeptLength]
    ensures DisplayName(a) != DisplayName(b)
  {
    assert DisplayName(a)[..KeptLength] == a[..KeptLength];
    assert DisplayName(b)[..KeptLength] == b[..KeptLength];
  }
}
