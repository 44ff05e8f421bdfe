/**
 * The retention sweep both research copies run over the download folder: walk
 * the `os.listdir` listing once and remove each file the copy's own rule calls
 * expired. Each copy supplies its rule as `expired`.
 */
module Sweep {
  import opened Documents

  /** The folder without the files `expired` picks. */
  function Without(files: map<string, PdfDoc>, expired: (string, PdfDoc) -> bool): (r: map<string, PdfDoc>)
    ensures forall n :: n in r <==> n in files && !expired(n, files[n])
    ensures forall n :: n in r ==> r[n] == files[n]
  {
    map n | n in files && !expired(n, files[n]) :: files[n]
  }

  /** The folder once the sweep has looked at the names in `seen`, one by one. */
  ghost function SweptOver(files: map<string, PdfDoc>, seen: seq<string>, expired: (string, PdfDoc) -> bool): map<string, PdfDoc> {
    if seen == [] then files
    else
      var prev := SweptOver(files, seen[..|seen| - 1], expired);
      var n := seen[|seen| - 1];
      if n in files && expired(n, files[n]) then prev - {n} else prev
  }

  lemma SweptOverStep(files: map<string, PdfDoc>, seen: seq<string>, name: string, expired: (string, PdfDoc) -> bool)
    ensures SweptOver(files, seen + [name], expired) ==
              var prev := SweptOver(files, seen, expired);
              if name in files && expired(name, files[name]) then prev - {name} else prev
  {
    assert (seen + [name])[..|seen|] == seen;
  }

  /** Looking at the names in `seen` removes exactly the expired files among them. */
  lemma {:induction false} SweptOverMeans(files: map<string, PdfDoc>, seen: seq<string>, expired: (string, PdfDoc) -> bool)
    ensures forall n :: n in SweptOver(files, seen, expired) <==> n in files && !(n in seen && expired(n, files[n]))
    ensures forall n :: n in SweptOver(files, seen, expired) ==> SweptOver(files, seen, expired)[n] == files[n]
  {
    if seen != [] {
      var init := seen[..|seen| - 1];
      SweptOverMeans(files, init, expired);
      assert seen == init + [seen[|seen| - 1]];
    }
  }

  /** A walk over a listing that covers the folder removes exactly what Without removes. */
  lemma SweptOverAll(files: map<string, PdfDoc>, listing: seq<string>, expired: (string, PdfDoc) -> bool)
    requires forall n :: n in files ==> n in listing
    ensures SweptOver(files, listing, expired) == Without(files, expired)
  {
    SweptOverMeans(files, listing, expired);
  }

  lemma RemoveCard(m: map<string, PdfDoc>, k: string)
    requires k in m
    ensures |m - {k}| == |m| - 1
  {
    assert (m - {k}).Keys == m.Keys - {k};
  }

  lemma ListingFresh(listing: seq<string>, i: nat)
    requires i < |listing|
    requires forall p, q :: 0 <= p < q < |listing| ==> listing[p] != listing[q]
    ensures listing[i] !in listing[..i]
  {
  }

  /** The loop body: the file goes exactly when the rule calls it expired. */
  method SweepNext(folder: Folder, ghost files0: map<string, PdfDoc>, ghost seen: seq<string>, name: string,
                   expired: (string, PdfDoc) -> bool)
    returns (removed: bool)
    requires folder.files == SweptOver(files0, seen, expired)
    requires name in files0 && name !in seen
    modifies folder
    ensures folder.files == SweptOver(files0, seen + [name], expired)
    ensures |folder.files| == if removed then |old(folder.files)| - 1 else |old(folder.files)|
  {
    SweptOverStep(files0, seen, name, expired);
    SweptOverMeans(files0, seen, expired);
    removed := expired(name, folder.files[name]);
    if removed {
      RemoveCard(folder.files, name);
      folder.Remove(name);
    }
  }

  /**
   * The sweep's loop over a listing of the folder: removes every expired file
   * and counts the removals.
   */
  method SweepListing(folder: Folder, listing: seq<string>, expired: (string, PdfDoc) -> bool) returns (deleted: nat)
    requires IsListing(listing, folder.files.Keys)
    modifies folder
    ensures folder.files == Without(old(folder.files), expired)
    ensures deleted == |old(folder.files)| - |folder.files|
  {
    ghost var files0 := folder.files;
    ghost var seen: seq<string> := [];
    deleted := 0;
    var i := 0;
    while i < |listing|
      invariant 0 <= i <= |listing| && seen == listing[..i]
      invariant folder.files == SweptOver(files0, seen, expired)
      invariant deleted == |files0| - |folder.files|
    {
      var name := listing[i];
      ListingFresh(listing, i);
      var removed := SweepNext(folder, files0, seen, name, expired);
      if removed {
        deleted := deleted + 1;
      }
      seen := seen + [name];
      i := i + 1;
    }
    assert seen == listing;
    SweptOverAll(files0, listing, expired);
  }

  /** Sweeping twice with the same rule removes nothing more. */
  lemma WithoutIdempotent(files: map<string, PdfDoc>, expired: (string, PdfDoc) -> bool)
    ensures Without(Without(files, expired), expired) == Without(files, expired)
  {
  }
}
