/**
 The upload area `components/csv-upload-area.tsx`: a file dropped on it, or
 picked with the file dialog, is handed to the page's upload handler. A
 dropped file must look like CSV; a picked file is not checked, since the
 dialog's ".csv" filter is only a suggestion to the browser.
 */
module CsvUpload {
  import opened Options
  import opened Strings

  /** A file as the browser describes it: its name and its MIME type. */
  datatype File = File(name: string, mimeType: string)

  /** `file.type === "text/csv" || file.name.endsWith(".csv")`. */
  predicate LooksLikeCsv(f: File) {
    f.mimeType == "text/csv" || EndsWith(f.name, ".csv")
  }

  /** `handleDrop`: the file handed on, if any. */
  function Drop(files: seq<File>): (handed: Option<File>)
    // only the first file counts, and only if it looks like CSV
    ensures handed.Some? <==> |files| > 0 && LooksLikeCsv(files[0])
    ensures handed.Some? ==> handed.value == files[0]
  {
    if |files| > 0 && LooksLikeCsv(files[0]) then Some(files[0]) else None
  }

  /** `handleFileInput`: the file handed on, if any; a missing file list is None. */
  function Pick(files: Option<seq<File>>): (handed: Option<File>)
    ensures handed.Some? <==> files.Some? && |files.value| > 0
    ensures handed.Some? ==> handed.value == files.value[0]
  {
    if files.Some? && |files.value| > 0 then Some(files.value[0]) else None
  }

  /** A drop depends on the first file only: files after it are ignored. */
  lemma DropIgnoresRest(f: File, rest: seq<File>)
    ensures Drop([f] + rest) == Drop([f])
  {
    assert ([f] + rest)[0] == f;
  }

  /** The dialog accepts everything a drop accepts, and more: a file the drop
      check would refuse is still handed on when picked. */
  lemma PickAcceptsMoreThanDrop(files: seq<File>)
    ensures Drop(files).Some? ==> Pick(Some(files)) == Drop(files)
    ensures exists g :: Drop([g]).None? && Pick(Some([g])) == Some(g)
  {
    var g := File("accounts.txt", "text/plain");
    assert !EndsWith(g.name, ".csv") by {
      assert g.name[|g.name| - 4..] == ".txt";
    }
    assert Drop([g]).None?;
  }

  /** The extension test is case-sensitive: "ACCOUNTS.CSV" with an unknown type is refused when dropped. */
  lemma UpperCaseExtensionRefused()
    ensures Drop([File("ACCOUNTS.CSV", "")]).None?
  {
    var n := "ACCOUNTS.CSV";
    assert n[|n| - 4..] == ".CSV";
  }
}
