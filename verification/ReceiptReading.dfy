// What Store.Current and Store.Read accept, on any disk (internal/receipt/store.go:156-273).
module ReceiptReading {
  import opened Text
  import opened ReceiptStore

  // A receipt under a name, with an identity.
  ghost predicate Stored(disk: Disk, name: Name, receipt: Receipt) {
    && disk.root.now && disk.dir.now && name in disk.receipts
    && disk.receipts[name].now.Some? && disk.receipts[name].now.value.data == Record(receipt)
    && receipt.runId != ""
  }

  // The index names it, with its run ID and the digest of its bytes.
  ghost predicate Indexed(disk: Disk, name: Name, receipt: Receipt) {
    && disk.root.now && disk.current.now.Some?
    && disk.current.now.value.data == Index(receipt.runId, name, Sha256(Record(receipt)))
  }

  // Current returns a receipt exactly when it is stored and indexed, with nothing changed in between.
  lemma CurrentExactlyWhen(disk: Disk, receipt: Receipt, name: Name)
    ensures Current(disk) == Ok((receipt, name)) <==> Stored(disk, name, receipt) && Indexed(disk, name, receipt)
  {
  }

  // Whatever else is under the name that is indexed, a changed receipt or something that is none, is refused.
  lemma ChangedReceiptIsRefused(disk: Disk, runId: string, name: Name, digest: Digest)
    requires disk.root.now && disk.dir.now && disk.current.now.Some? && disk.current.now.value.data == Index(runId, name, digest)
    requires name in disk.receipts && disk.receipts[name].now.Some?
    requires var data := disk.receipts[name].now.value.data;
             Sha256(data) != digest || !data.Record? || data.receipt.runId != runId || runId == ""
    ensures Current(disk) == Err(Unsound)
  {
  }

  // There is no current receipt exactly when the index, or what it names, is not there.
  lemma MissingExactlyWhen(disk: Disk)
    ensures Current(disk) == Err(Missing) <==>
      || !disk.root.now || disk.current.now.None?
      || (disk.current.now.value.data.Index? && disk.current.now.value.data.runId != ""
          && (!disk.dir.now || disk.current.now.value.data.name !in disk.receipts
              || disk.receipts[disk.current.now.value.data.name].now.None?))
  {
  }

  // The regular expression for stored run IDs, [A-Za-z0-9][A-Za-z0-9_.:+@~-]{0,255}, letter by letter.
  lemma RunIdExactlyWhen(id: string)
    ensures IsRunId(id) <==>
      && 1 <= |id| <= 256
      && (forall i :: 0 <= i < |id| ==>
            || ('A' <= id[i] <= 'Z') || ('a' <= id[i] <= 'z') || ('0' <= id[i] <= '9')
            || (i > 0 && (id[i] == '_' || id[i] == '.' || id[i] == ':' || id[i] == '+' || id[i] == '@' || id[i] == '~' || id[i] == '-')))
  {
    MarksAre();
    assert forall i :: 0 <= i < |id| ==>
      (id[i] in "_.:+@~-" <==> id[i] == '_' || id[i] == '.' || id[i] == ':' || id[i] == '+' || id[i] == '@' || id[i] == '~' || id[i] == '-');
  }

  lemma MarksAre()
    ensures forall c: char ::
      c in "_.:+@~-" <==> c == '_' || c == '.' || c == ':' || c == '+' || c == '@' || c == '~' || c == '-'
  {
  }
}
