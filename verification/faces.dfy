/** Shared vocabulary of the classifier: samples, per-query distances and the
    error outcomes the Java code raises as exceptions. */
module Faces {

  /** A labelled sample. `id` stands for the object's identity: two `Face`
      values denote the same Java object exactly when they are equal, so
      distinct objects carry distinct ids. */
  datatype Face = Face(id: nat, classification: string)

  /** The distance of every sample to the query of one classification pass. */
  type Distance = Face -> real

  /** A nullable reference. */
  datatype Option<T> = None | Some(value: T)

  /** The runtime exceptions the classifier can raise. */
  datatype Error =
    | IndexOutOfBounds   // List.get / List.remove with a bad index
    | IllegalArgument    // Random.nextInt(0)

  datatype Result<T> = Ok(value: T) | Err(error: Error)
}
