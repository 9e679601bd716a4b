/** Optional values, standing in for PHP's nullable parameters and the
    `?JsonResponse` convention of the validators (null = "no objection"). */
module Wrappers {

  datatype Option<+T> = None | Some(value: T)
}
