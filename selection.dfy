/** The selection gate (`SelectionDialog.on_ok` / `on_cancel`): the dialog shows one
    checkbox per discovered file, all checked at first; OK hands over the checked files
    in list order, Cancel (or closing the window) hands over the empty list. */
module Selection {
  import opened Seqs

  /** How the user left the dialog: OK with the boxes they unticked, or Cancel. */
  datatype Choice = Confirm(unchecked: set<nat>) | Cancel

  /** The checkbox states on OK: each box starts checked (source line 60). */
  function Checkboxes(n: nat, unchecked: set<nat>): (vars: seq<bool>)
    ensures |vars| == n && forall i :: 0 <= i < n ==> (vars[i] <==> i !in unchecked)
  {
    seq(n, i => i !in unchecked)
  }

  /** The files whose box is checked, in list order. */
  function Checked<T>(files: seq<T>, vars: seq<bool>): seq<T>
    requires |vars| == |files|
  {
    if files == [] then []
    else
      var n := |files| - 1;
      Checked(files[..n], vars[..n]) + (if vars[n] then [files[n]] else [])
  }

  /** The OK handler: walk the checkboxes and collect the checked files. */
  method OnOk<T>(files: seq<T>, vars: seq<bool>) returns (selected: seq<T>)
    requires |vars| == |files|
    ensures selected == Checked(files, vars)
  {
    selected := [];
    for i := 0 to |vars|
      invariant selected == Checked(files[..i], vars[..i])
    {
      assert files[..i + 1][..i] == files[..i] && vars[..i + 1][..i] == vars[..i];
      if vars[i] {
        selected := selected + [files[i]];
      }
    }
    assert files[..|files|] == files && vars[..|vars|] == vars;
  }

  /** What the worker receives from the dialog. */
  function Selected<T>(files: seq<T>, choice: Choice): seq<T>
  {
    match choice
    case Cancel => []
    case Confirm(unchecked) => Checked(files, Checkboxes(|files|, unchecked))
  }

  /** The dialog's answer: OK runs the checkbox walk, Cancel puts the empty list. */
  method Respond<T>(files: seq<T>, choice: Choice) returns (selected: seq<T>)
    ensures selected == Selected(files, choice)
    ensures choice.Cancel? ==> selected == []
  {
    match choice
    case Cancel => selected := [];
    case Confirm(unchecked) => selected := OnOk(files, Checkboxes(|files|, unchecked));
  }

  /** The chosen files keep the order of the list they came from. */
  lemma {:induction false} CheckedSubseq<T>(files: seq<T>, vars: seq<bool>)
    requires |vars| == |files|
    ensures IsSubseq(Checked(files, vars), files)
    decreases |files|
  {
    if files != [] {
      var n := |files| - 1;
      CheckedSubseq(files[..n], vars[..n]);
      assert files == files[..n] + [files[n]];
      if vars[n] {
        SubseqAppendBoth(Checked(files[..n], vars[..n]), files[..n], files[n]);
      } else {
        assert Checked(files, vars) == Checked(files[..n], vars[..n]);
        SubseqAppendRight(Checked(files[..n], vars[..n]), files[..n], files[n]);
      }
    }
  }

  /** A file is chosen exactly when some position holding it is checked. */
  lemma {:induction false} CheckedMembers<T>(files: seq<T>, vars: seq<bool>)
    requires |vars| == |files|
    ensures forall x :: x in Checked(files, vars) <==> exists i :: 0 <= i < |files| && vars[i] && files[i] == x
    decreases |files|
  {
    if files != [] {
      var n := |files| - 1;
      CheckedMembers(files[..n], vars[..n]);
      forall x
        ensures x in Checked(files, vars) <==> exists i :: 0 <= i < |files| && vars[i] && files[i] == x
      {
        if x in Checked(files[..n], vars[..n]) {
          var i :| 0 <= i < n && vars[..n][i] && files[..n][i] == x;
          assert vars[i] && files[i] == x;
        }
        if exists i :: 0 <= i < |files| && vars[i] && files[i] == x {
          var i :| 0 <= i < |files| && vars[i] && files[i] == x;
          if i < n { assert vars[..n][i] && files[..n][i] == x; }
        }
      }
    }
  }

  /** With every box left checked (the default), OK returns the whole list. */
  lemma {:induction false} CheckedAll<T>(files: seq<T>, vars: seq<bool>)
    requires |vars| == |files| && forall i :: 0 <= i < |vars| ==> vars[i]
    ensures Checked(files, vars) == files
    decreases |files|
  {
    if files != [] {
      var n := |files| - 1;
      CheckedAll(files[..n], vars[..n]);
      assert files == files[..n] + [files[n]];
    }
  }

  /** OK with nothing unticked selects everything; Cancel selects nothing. */
  lemma SelectedDefaults<T>(files: seq<T>)
    ensures Selected(files, Confirm({})) == files
    ensures Selected(files, Cancel) == []
  {
    CheckedAll(files, Checkboxes(|files|, {}));
  }
}
