/** What a question about an agent certificate may name it by. */
module Certificates {

  datatype Key = Fingerprint | Serial
}
