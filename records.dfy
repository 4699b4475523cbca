/**
 * The values the list controller coordinates: the state of a photo record,
 * the two processing stages, and the operations it hands to its queues.
 */
module Records {

  datatype Option<+T> = None | Some(value: T)

  /** The state a photo record is in; the operations themselves move it on. */
  datatype PhotoRecordState = New | Downloaded | Filtered | Failed

  /** The two background stages: an image download, then a filtration. */
  datatype Stage = Download | Filtration

  function Other(s: Stage): (o: Stage)
    ensures o != s
  {
    if s == Download then Filtration else Download
  }

  /**
   * An operation object (an ImageDownloader or an ImageFiltration).
   * `id` stands for the object's identity; `row` is the index path row the
   * operation was created for and that its completion block captures.
   */
  datatype Operation = Operation(id: nat, stage: Stage, row: nat)

  /** `s` without any occurrence of `x`, order kept. */
  function Without(s: seq<Operation>, x: Operation): (r: seq<Operation>)
    ensures forall y :: y in r <==> y in s && y != x
    ensures |r| <= |s|
    ensures x !in s ==> r == s
  {
    if s == [] then []
    else if s[0] == x then Without(s[1..], x)
    else [s[0]] + Without(s[1..], x)
  }
}
