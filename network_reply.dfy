/** What the wizard reads from a finished QNetworkReply: its error code and
    its redirection target. The error codes are the numeric values of Qt's
    QNetworkReply::NetworkError enumeration; the wizard compares them with
    raw integers (202, the range 203..299), so they are kept as integers. */
module NetworkReply {

  const NoError: int := 0
  const OperationCanceledError: int := 5
  const ContentOperationNotPermittedError: int := 202
  const ContentNotFoundError: int := 203
  const AuthenticationRequiredError: int := 204

  /** A finished reply. `redirection` is the string form of the
      RedirectionTargetAttribute URL; the empty string means no redirection. */
  datatype Reply = Reply(error: int, redirection: string)
}
